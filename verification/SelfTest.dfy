/**
 The PCIe self-test of lfdk/lib_pci_scan.c: the same registers read through both mechanisms, and a
 write, verify and restore of register 0x2C.
 */
module SelfTest {
  import opened Bits
  import opened Words
  import opened AddressCodec
  import opened CachedWindow
  import opened ConfigStore
  import opened Enumeration
  import opened PcixDriver
  import P = PciScreens

  const ERR_TEST_FAIL: int := -27
  const REG_TEST: uint16 := 0x2c
  const PATTERN: uint32 := 0x1234_5678

  // ---------- one dword written and read in place ----------

  lemma MergedReadsBack(w: Width, l: Lanes, n: int, v: uint32)
    requires Aligned(w, n) && 0 <= n < 4
    ensures Extracted(w, Merged(w, l, n, Split(v)), n) == v % Limit(w)
  {
    hide Split, Num;
    SplitLow(v);
    NumSplit(v);
  }

  /** A read narrower than the last write returns the low part of what was written. */
  lemma NarrowRead(rw: Width, ww: Width, l: Lanes, n: int, v: uint32)
    requires Aligned(rw, n) && Aligned(ww, n) && 0 <= n < 4 && Size(rw) < Size(ww)
    ensures Extracted(rw, Merged(ww, l, n, Split(v)), n) == v % Limit(rw)
  {
    hide Split, Num;
    SplitLow(v);
  }

  /** The bytes a wider read adds to those a write replaces are zero if the wide read returns zero. */
  lemma WideBytes(rw: Width, ww: Width, l: Lanes, n: int)
    requires Aligned(rw, n) && Aligned(ww, n) && 0 <= n < 4 && Size(rw) > Size(ww)
    requires Extracted(rw, l, n) == 0
    ensures forall i :: 0 <= i < 4 && n <= i < n + Size(rw) ==> Lane(l, i) == 0
  {}

  lemma NarrowPart(rw: Width, ww: Width, l: Lanes, n: int)
    requires Aligned(rw, n) && Aligned(ww, n) && 0 <= n < 4 && Size(rw) > Size(ww)
    requires forall i :: 0 <= i < 4 && n + Size(ww) <= i < n + Size(rw) ==> Lane(l, i) == 0
    ensures Extracted(rw, l, n) == Extracted(ww, l, n)
  {
    assert Lane(l, 0) == l.b0 && Lane(l, 1) == l.b1 && Lane(l, 2) == l.b2 && Lane(l, 3) == l.b3;
  }

  /** Then a wide read returns what was written, and the old dword read wide is the old value read
      narrow. */
  lemma WideRead(rw: Width, ww: Width, l: Lanes, n: int, v: uint32)
    requires Aligned(rw, n) && Aligned(ww, n) && 0 <= n < 4 && Size(rw) > Size(ww)
    requires Extracted(rw, Merged(ww, l, n, Split(0)), n) == 0
    ensures Extracted(rw, Merged(ww, l, n, Split(v)), n) == v % Limit(ww)
    ensures Extracted(rw, l, n) == Extracted(ww, l, n)
  {
    hide Split, Extracted, Merged, Lane, Num;
    var z, k := Merged(ww, l, n, Split(0)), Merged(ww, l, n, Split(v));
    WideBytes(rw, ww, z, n);
    MergedReadsBack(ww, l, n, v);
    forall i | 0 <= i < 4 && n + Size(ww) <= i < n + Size(rw)
      ensures Lane(l, i) == 0 && Lane(k, i) == 0
    {
      MergedLane(ww, l, n, Split(0), i);
      MergedLane(ww, l, n, Split(v), i);
    }
    NarrowPart(rw, ww, l, n);
    NarrowPart(rw, ww, k, n);
  }

  lemma MergedBackRestores(w: Width, l: Lanes, n: int, k: Lanes)
    requires Aligned(w, n) && 0 <= n < 4
    requires forall i :: 0 <= i < 4 && !(n <= i < n + Size(w)) ==> Lane(k, i) == Lane(l, i)
    ensures Merged(w, k, n, Split(Extracted(w, l, n))) == l
  {
    hide Split, Num;
    SplitSmall(Lane(l, n), Lane(l, n + 1));
    SplitNum(l);
    assert Lane(k, 0) == k.b0 && Lane(k, 1) == k.b1 && Lane(k, 2) == k.b2 && Lane(k, 3) == k.b3;
    assert Lane(l, 0) == l.b0 && Lane(l, 1) == l.b1 && Lane(l, 2) == l.b2 && Lane(l, 3) == l.b3;
  }

  /** The hardware is as in s0, except for what dword a holds. */
  predicate Holding(p: Platform, s0: DriverState, s: DriverState, a: int, l: Lanes) {
    Valid(s) && Fresh(s) == Fresh(PhysWrite(p, s0, a, l))
  }

  lemma HoldsNow(p: Platform, s: DriverState, a: int)
    requires Valid(s)
    ensures forall t :: Holding(p, s, t, a, PhysRead(p, s, a)) ==> Valid(t) && Fresh(t) == Fresh(s)
    ensures Holding(p, s, s, a, PhysRead(p, s, a))
  {
    assert s.config[(a - p.ecam) / 4 := s.config[(a - p.ecam) / 4]] == s.config;
    assert s.ram[a / 4 := s.ram[a / 4]] == s.ram;
  }

  lemma HeldIsRead(p: Platform, s0: DriverState, s: DriverState, a: int, l: Lanes, l': Lanes)
    requires Holding(p, s0, s, a, l)
    ensures PhysRead(p, s, a) == l && Fresh(PhysWrite(p, s, a, l')) == Fresh(PhysWrite(p, s0, a, l'))
  {
    var i := (a - p.ecam) / 4;
    assert s0.config[i := l][i := l'] == s0.config[i := l'];
    assert s0.ram[a / 4 := l][a / 4 := l'] == s0.ram[a / 4 := l'];
  }

  /** The dword a single MMIO request names, and the offset in it. */
  function At(req: Request): int {
    Addr32(req) - Addr32(req) % 4
  }

  function Off(req: Request): int {
    Addr32(req) % 4
  }

  predicate Guarded(p: Platform, req: Request) {
    Refused(p, AlignDown(Addr32(req)))
  }

  /** What a read of a dword l returns, and what a write leaves of it. */
  function Seen(p: Platform, w: Width, req: Request, l: Lanes): uint32 {
    if Guarded(p, req) then Limit(w) - 1 else Extracted(w, l, Off(req))
  }

  function Left(p: Platform, w: Width, req: Request, l: Lanes, v: uint32): Lanes {
    if Guarded(p, req) then l else Merged(w, l, Off(req), Split(v))
  }

  lemma ReadHeld(p: Platform, w: Width, s0: DriverState, s: DriverState, req: Request, l: Lanes)
    requires req.phyBase != 0 && Holding(p, s0, s, At(req), l)
    ensures var (s', v) := ReadResult(p, w, s, req);
            v == Seen(p, w, req, l) && Holding(p, s0, s', At(req), l)
  {
    var addr := Addr32(req);
    HeldIsRead(p, s0, s, addr - addr % 4, l, l);
    SettledHits(p, s, addr);
    hide Addr32, Extracted, PhysRead, PhysWrite, Refused, Settled, Hit, AlignDown, Coherent, WindowAligned;
  }

  lemma WriteHeld(p: Platform, w: Width, s0: DriverState, s: DriverState, req: Request, l: Lanes)
    requires req.phyBase != 0 && Aligned(w, Addr32(req)) && Holding(p, s0, s, At(req), l)
    ensures Holding(p, s0, WriteResult(p, w, s, req), At(req), Left(p, w, req, l, req.buf))
  {
    var addr := Addr32(req);
    var a, l' := addr - addr % 4, Merged(w, l, addr % 4, Split(req.buf));
    AlignedMeansWholeDword(w, addr);
    HeldIsRead(p, s0, s, a, l, l');
    SettledHits(p, s, addr);
    PhysWriteFresh(p, Settled(s, addr), s, a, l');
    ConfigChangeKeepsValid(Settled(s, addr), PhysWrite(p, Settled(s, addr), a, l'));
    hide Addr32, Merged, Split, PhysRead, PhysWrite, Refused, Settled, Hit, AlignDown, Coherent, WindowAligned, Aligned;
  }

  lemma BufNotAddressed(req: Request)
    ensures Addr32(Plain(req)) == Addr32(req)
  {
    hide Or;
  }

  // ---------- validate_pcie_w_single ----------

  /** ioctl( lfdd_fd, r_mode, &lfdd_pci_data ) */
  method ReadAgain(t: Scanner, w: Width, ghost s0: DriverState, ghost req: Request, ghost l: Lanes)
    requires req.phyBase != 0 && Plain(t.data) == req && Holding(t.driver.platform, s0, t.driver.State(), At(req), l)
    modifies t`data, t.driver
    ensures Holding(t.driver.platform, s0, t.driver.State(), At(req), l)
    ensures t.data == req.(buf := Seen(t.driver.platform, w, req, l))
  {
    BufNotAddressed(t.data);
    ReadHeld(t.driver.platform, w, s0, t.driver.State(), t.data, l);
    hide Addr32, ReadResult, Extracted, Holding, Refused, AlignDown;
    var value := t.driver.Read(w, t.data);
    t.data := t.data.(buf := value);
  }

  /** ioctl( lfdd_fd, w_mode, &lfdd_pci_data ) */
  method WriteAgain(t: Scanner, w: Width, ghost s0: DriverState, ghost req: Request, ghost l: Lanes)
    requires req.phyBase != 0 && Aligned(w, Addr32(req))
    requires Plain(t.data) == req && Holding(t.driver.platform, s0, t.driver.State(), At(req), l)
    modifies t.driver
    ensures Holding(t.driver.platform, s0, t.driver.State(), At(req), Left(t.driver.platform, w, req, l, t.data.buf))
  {
    BufNotAddressed(t.data);
    WriteHeld(t.driver.platform, w, s0, t.driver.State(), t.data, l);
    hide Addr32, WriteResult, Merged, Holding, Refused, AlignDown;
    t.driver.Write(w, t.data);
  }

  /** The shared request names the test register, and the hardware is as in s0 but for its dword. */
  ghost predicate Testing(t: Scanner, s0: DriverState, req: Request, l: Lanes)
    reads t, t.driver
  {
    Plain(t.data) == req && Holding(t.driver.platform, s0, t.driver.State(), At(req), l)
  }

  /** One step of the test: write a value, read it back and compare. */
  method WriteVerify(t: Scanner, rw: Width, ww: Width, v: uint32,
                     ghost s0: DriverState, ghost req: Request, ghost l: Lanes)
    returns (same: bool)
    requires req.phyBase != 0 && Aligned(ww, Addr32(req)) && Testing(t, s0, req, l)
    modifies t`data, t.driver
    ensures Testing(t, s0, req, Left(t.driver.platform, ww, req, l, v))
    ensures same <==> Seen(t.driver.platform, rw, req, Left(t.driver.platform, ww, req, l, v)) == v
  {
    hide Addr32, At, Holding, Left, Seen;
    t.data := t.data.(buf := v);
    WriteAgain(t, ww, s0, req, l);
    ReadAgain(t, rw, s0, req, Left(t.driver.platform, ww, req, l, v));
    same := t.data.buf == v;
  }

  function TestRequest(d: P.Device): Request {
    Request(d.bus, d.dev, d.fun, REG_TEST, d.phyBase, 0)
  }

  /** pattern & mask */
  function Masked(w: Width): uint32 {
    PATTERN % Limit(w)
  }

  /** The test on the dword alone: the verdict, and what it leaves. It stops at the first value that does
      not read back. */
  function TestResult(p: Platform, rw: Width, ww: Width, req: Request, l: Lanes): (bool, Lanes) {
    var saved, zeroed := Seen(p, rw, req, l), Left(p, ww, req, l, 0);
    if Seen(p, rw, req, zeroed) != 0 then (false, zeroed)
    else
      var patterned := Left(p, ww, req, zeroed, Masked(ww));
      if Seen(p, rw, req, patterned) != Masked(ww) then (false, patterned)
      else
        var restored := Left(p, ww, req, patterned, saved);
        (Seen(p, rw, req, restored) == saved, restored)
  }

  lemma WrittenTwice(w: Width, l: Lanes, n: int, v: uint32, v': uint32)
    requires Aligned(w, n) && 0 <= n < 4
    ensures Merged(w, Merged(w, l, n, Split(v)), n, Split(v')) == Merged(w, l, n, Split(v'))
    ensures Merged(w, Merged(w, l, n, Split(v)), n, Split(Extracted(w, l, n))) == l
  {
    hide Split, Extracted, Merged, Lane;
    MergedOver(w, l, n, Split(v), Split(v'));
    var k := Merged(w, l, n, Split(v));
    forall i | 0 <= i < 4
      ensures !(n <= i < n + Size(w)) ==> Lane(k, i) == Lane(l, i)
    {
      MergedLane(w, l, n, Split(v), i);
    }
    MergedBackRestores(w, l, n, k);
  }

  lemma MergedOver(w: Width, l: Lanes, n: int, c: Lanes, c': Lanes)
    requires Aligned(w, n) && 0 <= n < 4
    ensures Merged(w, Merged(w, l, n, c), n, c') == Merged(w, l, n, c')
  {}

  /** Past the guard, with one width, the test passes and restores the dword. */
  lemma TestCycle(p: Platform, w: Width, req: Request, l: Lanes)
    requires Aligned(w, Addr32(req)) && !Guarded(p, req)
    ensures TestResult(p, w, w, req, l) == (true, l)
  {
    hide Addr32, Refused, AlignDown, Merged, Extracted, Split, Lane;
    AlignedOffset(w, Addr32(req));
    var n := Off(req);
    MergedReadsBack(w, l, n, 0);
    MergedReadsBack(w, l, n, Masked(w));
    WrittenTwice(w, l, n, 0, Masked(w));
    WrittenTwice(w, l, n, Masked(w), 0);
  }

  /** A narrower read cannot see the pattern. */
  lemma NarrowTest(p: Platform, rw: Width, ww: Width, req: Request, l: Lanes)
    requires Aligned(rw, Addr32(req)) && Aligned(ww, Addr32(req)) && !Guarded(p, req) && Size(rw) < Size(ww)
    ensures TestResult(p, rw, ww, req, l) == (false, Left(p, ww, req, l, Masked(ww)))
  {
    hide Addr32, Refused, AlignDown, Merged, Extracted, Split;
    AlignedOffset(rw, Addr32(req));
    AlignedOffset(ww, Addr32(req));
    var n := Off(req);
    NarrowRead(rw, ww, l, n, 0);
    NarrowRead(rw, ww, l, n, Masked(ww));
    WrittenTwice(ww, l, n, 0, Masked(ww));
    assert Masked(ww) % Limit(rw) != Masked(ww);
  }

  /** A wider read passes exactly if the bytes beside the written ones are zero. */
  lemma WideTest(p: Platform, rw: Width, ww: Width, req: Request, l: Lanes)
    requires Aligned(rw, Addr32(req)) && Aligned(ww, Addr32(req)) && !Guarded(p, req) && Size(rw) > Size(ww)
    ensures var zeroed := Left(p, ww, req, l, 0);
            TestResult(p, rw, ww, req, l) == if Seen(p, rw, req, zeroed) == 0 then (true, l) else (false, zeroed)
  {
    hide Addr32, Refused, AlignDown, Merged, Extracted, Split;
    AlignedOffset(rw, Addr32(req));
    AlignedOffset(ww, Addr32(req));
    var n := Off(req);
    if Seen(p, rw, req, Left(p, ww, req, l, 0)) == 0 {
      WideRead(rw, ww, l, n, Masked(ww));
      WrittenTwice(ww, l, n, 0, Masked(ww));
      WrittenTwice(ww, l, n, Masked(ww), 0);
      assert Masked(ww) % Limit(ww) == Masked(ww);
    }
  }

  /** The verdict for any two widths: the register is reached, and either the widths are the same or the
      read is the wider one and finds zeros beside the written bytes. A test that passes restores the dword,
      one behind the guard leaves it, and with one width nothing is ever changed. */
  lemma TestOutcome(p: Platform, rw: Width, ww: Width, req: Request, l: Lanes)
    requires Aligned(rw, Addr32(req)) && Aligned(ww, Addr32(req))
    ensures var (passed, left) := TestResult(p, rw, ww, req, l);
            && (passed <==> !Guarded(p, req)
                            && (rw == ww || (Size(rw) > Size(ww) && Seen(p, rw, req, Left(p, ww, req, l, 0)) == 0)))
            && (passed || Guarded(p, req) || rw == ww ==> left == l)
  {
    if Guarded(p, req) {
      hide Addr32;
    } else if Size(rw) < Size(ww) {
      NarrowTest(p, rw, ww, req, l);
      hide TestResult;
    } else if Size(rw) > Size(ww) {
      WideTest(p, rw, ww, req, l);
      hide TestResult;
    } else {
      TestCycle(p, ww, req, l);
      hide TestResult;
    }
  }

  /** Zeros, the pattern and the saved value, in this order, stopping at the first that does not read
      back. */
  method ThreeWrites(t: Scanner, rw: Width, ww: Width, saved: uint32,
                     ghost s0: DriverState, ghost req: Request, ghost l: Lanes)
    returns (passed: bool)
    requires req.phyBase != 0 && Aligned(ww, Addr32(req)) && saved == Seen(t.driver.platform, rw, req, l)
    requires Testing(t, s0, req, l)
    modifies t`data, t.driver
    ensures Testing(t, s0, req, TestResult(t.driver.platform, rw, ww, req, l).1)
    ensures passed == TestResult(t.driver.platform, rw, ww, req, l).0
  {
    hide Addr32, Left, Seen, Testing, Masked, Aligned;
    ghost var p := t.driver.platform;
    ghost var zeroed := Left(p, ww, req, l, 0);
    ghost var patterned := Left(p, ww, req, zeroed, Masked(ww));
    passed := WriteVerify(t, rw, ww, 0, s0, req, l);
    if !passed {
      return;
    }
    passed := WriteVerify(t, rw, ww, Masked(ww), s0, req, zeroed);
    if !passed {
      return;
    }
    passed := WriteVerify(t, rw, ww, saved, s0, req, patterned);
  }

  /** validate_pcie_w_single, for any read and write width. */
  method ValidateWriteSingle(t: Scanner, d: P.Device, rw: Width, ww: Width) returns (code: int)
    requires Valid(t.driver.State())
    requires Aligned(rw, Addr32(TestRequest(d))) && Aligned(ww, Addr32(TestRequest(d)))
    modifies t`data, t.driver
    ensures Valid(t.driver.State())
    ensures var p, s, req := t.driver.platform, old(t.driver.State()), TestRequest(d);
            var (passed, left) := TestResult(p, rw, ww, req, PhysRead(p, s, At(req)));
            if d.phyBase == 0 then code == ERR_TEST_FAIL && Fresh(t.driver.State()) == Fresh(s)
            else code == (if passed then 0 else ERR_TEST_FAIL)
                 && Fresh(t.driver.State()) == Fresh(PhysWrite(p, s, At(req), left))
  {
    if d.phyBase == 0 {
      return ERR_TEST_FAIL;
    }
    ghost var p, s0, req := t.driver.platform, t.driver.State(), TestRequest(d);
    ghost var l := PhysRead(p, s0, At(req));
    HoldsNow(p, s0, At(req));
    t.data := Request(d.bus, d.dev, d.fun, REG_TEST, d.phyBase, t.data.buf);
    ReadAgain(t, rw, s0, req, l);
    hide Addr32, At, PhysRead, PhysWrite, Fresh, Seen, Valid, TestResult;
    var passed := ThreeWrites(t, rw, ww, t.data.buf, s0, req, l);
    code := if passed then 0 else ERR_TEST_FAIL;
  }

  /** With one width, as in every call: it succeeds exactly if the register is reached through MMIO, and
      whatever the outcome the hardware is as it was found. */
  method ValidateWriteWidth(t: Scanner, d: P.Device, w: Width) returns (code: int)
    requires Valid(t.driver.State()) && Aligned(w, Addr32(TestRequest(d)))
    modifies t`data, t.driver
    ensures Valid(t.driver.State()) && Fresh(t.driver.State()) == old(Fresh(t.driver.State()))
    ensures code == if d.phyBase != 0 && !Guarded(t.driver.platform, TestRequest(d)) then 0 else ERR_TEST_FAIL
  {
    ghost var p, s, req := t.driver.platform, t.driver.State(), TestRequest(d);
    HoldsNow(p, s, At(req));
    TestOutcome(p, w, w, req, PhysRead(p, s, At(req)));
    hide Addr32, At, PhysRead, PhysWrite, Fresh, Guarded, TestResult;
    code := ValidateWriteSingle(t, d, w, w);
  }

  // ---------- validate_pcie_r_single ----------

  const TEST_REGS: seq<uint8> := [0x00, 0x01, 0x02, 0x03, 0x08, 0x09, 0x0a, 0x0b]

  function Mmio(d: P.Device, reg: uint16): Request {
    Request(d.bus, d.dev, d.fun, reg, d.phyBase, 0)
  }

  predicate SameReply(m: Machine, w: Width, d: P.Device, reg: uint8) {
    Reply(m, w, Mmio(d, reg)) == Reply(m, w, Port(d.bus, d.dev, d.fun, reg))
  }

  /** One register through MMIO, then through the ports. */
  method CompareRegister(t: Scanner, d: P.Device, w: Width, reg: uint8, ghost m: Machine) returns (same: bool)
    requires t.On(m) && t.data.bus == d.bus && t.data.dev == d.dev && t.data.fun == d.fun
    modifies t`data, t.driver
    ensures t.On(m) && t.data.bus == d.bus && t.data.dev == d.dev && t.data.fun == d.fun
    ensures same <==> SameReply(m, w, d, reg)
  {
    hide Reply, Valid, Fresh;
    t.data := t.data.(phyBase := d.phyBase, reg := reg);
    t.Ioctl(w, m);
    var first := t.data.buf;
    t.data := t.data.(phyBase := 0, reg := reg);
    t.Ioctl(w, m);
    same := first == t.data.buf;
  }

  /** Succeeds exactly if both mechanisms return the same for all eight registers, odd ones included. */
  method ValidateReadSingle(t: Scanner, d: P.Device, w: Width, ghost m: Machine) returns (code: int)
    requires t.On(m)
    modifies t`data, t.driver
    ensures t.On(m)
    ensures code == if d.phyBase != 0 && forall i :: 0 <= i < |TEST_REGS| ==> SameReply(m, w, d, TEST_REGS[i])
                    then 0 else ERR_TEST_FAIL
  {
    if d.phyBase == 0 {
      return ERR_TEST_FAIL;
    }
    t.data := t.data.(bus := d.bus, dev := d.dev, fun := d.fun);
    assert t.On(m);
    hide SameReply, Scanner.On;
    var i := 0;
    while i < |TEST_REGS|
      invariant 0 <= i <= |TEST_REGS| && t.On(m)
      invariant t.data.bus == d.bus && t.data.dev == d.dev && t.data.fun == d.fun
      invariant forall j :: 0 <= j < i ==> SameReply(m, w, d, TEST_REGS[j])
    {
      var same := CompareRegister(t, d, w, TEST_REGS[i], m);
      if !same {
        return ERR_TEST_FAIL;
      }
      i := i + 1;
    }
    return 0;
  }

  lemma MmioDword(m: Machine, d: P.Device, reg: uint8)
    requires GoodPlatform(m.platform) && P.GoodDevice(m.platform, d) && d.phyBase != 0
    ensures var p, s, addr, key := m.platform, Fresh(m.hw), Addr32(Mmio(d, reg)), Key(d.bus, d.dev, d.fun, reg);
            PhysRead(p, Settled(s, addr), Hit(Settled(s, addr), addr)) == s.config[key / 4] && addr % 4 == key % 4
  {
    var s, req := Fresh(m.hw), Mmio(d, reg);
    assert Valid(s) && req.phyBase == m.platform.ecam && InRange(req) && GoodPlatform(m.platform);
    hide Addr32, Settled, Hit, Valid, GoodPlatform, P.GoodDevice;
    EcamTarget(m.platform, s, req);
    SettledKeeps(s, Addr32(req));
  }

  lemma MmioReply(m: Machine, w: Width, d: P.Device, reg: uint8)
    requires GoodPlatform(m.platform) && P.GoodDevice(m.platform, d) && d.phyBase != 0
    ensures Reply(m, w, Mmio(d, reg)) == Selection(m, w, d.bus, d.dev, d.fun, reg)
  {
    MmioDword(m, d, reg);
    P.NotRefused(m.platform, d, Mmio(d, reg));
    hide Addr32, Extracted, Refused, Settled, Hit, AlignDown, PhysRead, GoodPlatform, P.GoodDevice, Key;
  }

  /** On a platform that decodes the base, both mechanisms return the same at every register and width,
      aligned or not. */
  lemma MechanismsAgree(m: Machine, w: Width, d: P.Device, reg: uint8)
    requires GoodPlatform(m.platform) && P.GoodDevice(m.platform, d)
    ensures SameReply(m, w, d, reg)
  {
    hide Reply, Selection;
    if d.phyBase != 0 {
      PortSelects(m, w, d.bus, d.dev, d.fun, reg);
      MmioReply(m, w, d, reg);
    }
  }

  // ---------- validate_pcie_r_256B ----------

  /** The mass_buf a bulk read returns: zeroed by the ioctl, then filled unless the read is refused. */
  function BulkReply(m: Machine, req: Request): (bytes: seq<uint8>)
    ensures |bytes| == MASSBUF
  {
    if BulkRefused(m.platform, req) then seq(MASSBUF, i => 0)
    else BulkBlock(m.platform, BulkSettled(Fresh(m.hw), req), req)
  }

  lemma BulkBufIgnored(m: Machine, s: DriverState, req: Request)
    requires req.phyBase != 0 ==> s.window.Mapped?
    ensures BulkRefused(m.platform, Plain(req)) == BulkRefused(m.platform, req)
    ensures BulkBlock(m.platform, s, Plain(req)) == BulkBlock(m.platform, s, req)
    ensures BulkSettled(s, Plain(req)) == BulkSettled(s, req)
    ensures BulkAtWindow(Bulk(Plain(req))) == BulkAtWindow(Bulk(req))
  {
    BufNotAddressed(req);
    hide Addr32, Lane, PortRead, PhysRead, Refused, Remapped;
    forall i | 0 <= i < MASSBUF
      ensures BulkBlock(m.platform, s, Plain(req))[i] == BulkBlock(m.platform, s, req)[i]
    {}
  }

  method BulkIoctl(t: Scanner, ghost m: Machine) returns (massBuf: array<uint8>)
    requires t.On(m) && BulkAtWindow(Bulk(Plain(t.data)))
    modifies t.driver
    ensures t.On(m) && fresh(massBuf) && massBuf[..] == BulkReply(m, Plain(t.data))
  {
    ghost var s, req := t.driver.State(), t.data;
    ghost var f, u := BulkSettled(s, req), BulkSettled(Fresh(s), req);
    BulkBufIgnored(m, u, req);
    BulkIsFresh(m.platform, s, req);
    BulkBlockSame(m.platform, f, u, req);
    hide BulkByte, BulkRefused, Valid, BulkAtWindow;
    massBuf := new uint8[MASSBUF](_ => 0);
    t.driver.Read256(t.data, massBuf);
    assert BulkRefused(m.platform, req) || massBuf[..] == BulkBlock(m.platform, f, req);
  }

  /** validate_pcie_r_256B: succeeds exactly if both mechanisms fill the eight bytes the same. */
  method ValidateRead256(t: Scanner, d: P.Device, ghost m: Machine) returns (code: int)
    requires t.On(m) && BulkAtWindow(Bulk(Mmio(d, 0)))
    modifies t`data, t.driver
    ensures t.On(m)
    ensures var x, y := BulkReply(m, Mmio(d, 0)), BulkReply(m, Port(d.bus, d.dev, d.fun, 0));
            code == if forall i :: 0 <= i < |TEST_REGS| ==> x[TEST_REGS[i]] == y[TEST_REGS[i]] then 0 else ERR_TEST_FAIL
  {
    hide BulkReply, Fresh, Valid, Addr32;
    t.data := Request(d.bus, d.dev, d.fun, 0, d.phyBase, t.data.buf);
    var mmio := BulkIoctl(t, m);
    t.data := t.data.(reg := 0, phyBase := 0);
    var port := BulkIoctl(t, m);
    hide *;
    var i := 0;
    while i < |TEST_REGS|
      invariant 0 <= i <= |TEST_REGS|
      invariant forall j :: 0 <= j < i ==> mmio[..][TEST_REGS[j]] == port[..][TEST_REGS[j]]
    {
      if mmio[TEST_REGS[i]] != port[TEST_REGS[i]] {
        return ERR_TEST_FAIL;
      }
      i := i + 1;
    }
    return 0;
  }

  lemma BulkRepliesAgree(m: Machine, d: P.Device)
    requires GoodPlatform(m.platform) && P.GoodDevice(m.platform, d)
    ensures BulkReply(m, Mmio(d, 0)) == BulkReply(m, Port(d.bus, d.dev, d.fun, 0))
    ensures BulkAtWindow(Bulk(Mmio(d, 0)))
  {
    hide Addr32, BulkBlock, BulkSettled, BulkRefused, BlockAt, Refused, AlignDown;
    var s, x, y := Fresh(m.hw), Mmio(d, 0), Port(d.bus, d.dev, d.fun, 0);
    BulkAgrees(m.platform, s, y);
    if d.phyBase != 0 {
      P.NotRefused(m.platform, d, x);
      BulkAgrees(m.platform, s, x);
      EcamBulkTarget(m.platform, s, x);
      BulkBase(m.platform.ecam, KeyOf(x));
    }
  }

  lemma BulkBase(base: int, key: int)
    requires base % MASSBUF == 0 && key % MASSBUF == 0
    ensures (base + key) % MASSBUF == 0
  {
    Divided(base + key, MASSBUF, base / MASSBUF + key / MASSBUF, 0);
  }

  // ---------- the whole self-test ----------

  lemma TestKey(d: P.Device)
    requires d.dev < 32 && d.fun < 8
    ensures KeyOf(TestRequest(d)) == 4 * (d.bus * 0x4_0000 + d.dev * 0x2000 + d.fun * 0x400) + 0x2c
  {}

  lemma TestAddr32(base: uint64, d: P.Device)
    requires d.dev < 32 && d.fun < 8 && d.phyBase == base && 0 < base <= 0x1_0000_0000 - SPACE
    ensures Addr32(TestRequest(d)) == base + 4 * (d.bus * 0x4_0000 + d.dev * 0x2000 + d.fun * 0x400) + 0x2c
  {
    TestKey(d);
    hide Address, KeyOf, Fields;
    EcamAddress(TestRequest(d));
    EcamAddressInverse(TestRequest(d));
  }

  /** Register 0x2C is 4-aligned under an aligned base, and outside the guarded window. */
  lemma TestRegister(p: Platform, d: P.Device, w: Width)
    requires GoodPlatform(p) && P.GoodDevice(p, d) && d.phyBase != 0
    ensures Aligned(w, Addr32(TestRequest(d))) && !Guarded(p, TestRequest(d))
  {
    hide Addr32, Refused, AlignDown;
    P.NotRefused(p, d, TestRequest(d));
    TestAddr32(p.ecam, d);
    var h := d.bus * 0x4_0000 + d.dev * 0x2000 + d.fun * 0x400;
    TestAddress(p.ecam, 4 * h, h);
  }

  lemma TestAddress(base: int, page: int, h: int)
    requires base % MASSBUF == 0 && page == 4 * h
    ensures (base + page + 0x2c) % 4 == 0 && (base + page + 0x2c) % 2 == 0
  {
    Divided(base + page + 0x2c, 4, base / MASSBUF * 64 + h + 11, 0);
    Divided(base + page + 0x2c, 2, base / MASSBUF * 128 + 2 * h + 22, 0);
  }

  predicate ReadsAgree(m: Machine, w: Width, d: P.Device) {
    forall i :: 0 <= i < |TEST_REGS| ==> SameReply(m, w, d, TEST_REGS[i])
  }

  predicate BlocksAgree(m: Machine, d: P.Device) {
    var x, y := BulkReply(m, Mmio(d, 0)), BulkReply(m, Port(d.bus, d.dev, d.fun, 0));
    forall i :: 0 <= i < |TEST_REGS| ==> x[TEST_REGS[i]] == y[TEST_REGS[i]]
  }

  /** Both mechanisms agree on the eight registers at every width and in bulk, and the guard lets the test
      register through. */
  predicate DevicePasses(m: Machine, d: P.Device) {
    && ReadsAgree(m, Byte, d) && ReadsAgree(m, Word, d) && ReadsAgree(m, Dword, d) && BlocksAgree(m, d)
    && !Guarded(m.platform, TestRequest(d))
  }

  /** A device without a base, or under an aligned one that leaves room below 4 GiB, decoded or not. */
  predicate Testable(d: P.Device) {
    d.dev < 32 && d.fun < 8 && d.phyBase % MASSBUF == 0 && d.phyBase <= 0x1_0000_0000 - SPACE
  }

  /** Register reg of a device through MMIO. */
  lemma MmioAddress(d: P.Device, reg: uint8)
    requires Testable(d) && d.phyBase != 0
    ensures var page, addr := d.phyBase + Key(d.bus, d.dev, d.fun, 0), Addr32(Mmio(d, reg));
            0 <= page <= 0xffff_ff00 && page % MASSBUF == 0 && addr == page + reg
  {
    var req := Mmio(d, 0);
    assert req.(reg := reg) == Mmio(d, reg) && KeyOf(req) == Key(d.bus, d.dev, d.fun, 0) && InRange(req);
    assert GoodPlatform(Platform(d.phyBase, 0)) && req.phyBase == d.phyBase && req.(reg := 0) == req;
    hide *;
    AddressAt(Platform(d.phyBase, 0), req, reg);
  }

  lemma TestableRegisters(d: P.Device)
    requires Testable(d) && d.phyBase != 0
    ensures BulkAtWindow(Bulk(Mmio(d, 0)))
    ensures forall w :: Aligned(w, Addr32(TestRequest(d)))
  {
    MmioAddress(d, 0);
    TestAddr32(d.phyBase, d);
    var h := d.bus * 0x4_0000 + d.dev * 0x2000 + d.fun * 0x400;
    TestAddress(d.phyBase, 4 * h, h);
    hide Addr32;
  }

  lemma GoodDevicePasses(m: Machine, d: P.Device)
    requires GoodPlatform(m.platform) && P.GoodDevice(m.platform, d) && d.phyBase != 0
    ensures Testable(d) && DevicePasses(m, d)
  {
    forall w: Width, reg: uint8
      ensures SameReply(m, w, d, reg)
    {
      MechanismsAgree(m, w, d, reg);
    }
    BulkRepliesAgree(m, d);
    TestRegister(m.platform, d, Byte);
    hide SameReply, BulkReply, Guarded, Refused;
  }

  /** Reads and writes of one listed function; the widths in the source's order. */
  method ValidateDevice(t: Scanner, d: P.Device, ghost m: Machine) returns (code: int)
    requires t.On(m) && Testable(d) && d.phyBase != 0
    modifies t`data, t.driver
    ensures t.On(m) && code == if DevicePasses(m, d) then 0 else ERR_TEST_FAIL
  {
    TestableRegisters(d);
    hide SameReply, BulkReply, BulkAtWindow, Aligned, Guarded, Addr32, TestRequest, Testable, Fresh, Valid;
    code := ValidateReadSingle(t, d, Byte, m);
    if code == 0 {
      code := ValidateReadSingle(t, d, Word, m);
    }
    if code == 0 {
      code := ValidateReadSingle(t, d, Dword, m);
    }
    if code == 0 {
      code := ValidateRead256(t, d, m);
    }
    if code == 0 {
      code := ValidateWriteWidth(t, d, Byte);
    }
    if code == 0 {
      code := ValidateWriteWidth(t, d, Word);
    }
    if code == 0 {
      code := ValidateWriteWidth(t, d, Dword);
    }
  }

  /** ValidationPCIE: over the whole list it reports success exactly if every function with a base passes, and
      leaves the hardware as it was whatever the outcome. */
  method ValidationPcie(t: Scanner, ghost m: Machine) returns (success: bool)
    requires t.On(m) && t.len <= t.list.Length
    requires forall i :: 0 <= i < t.len ==> Testable(t.list[i].device)
    modifies t`data, t.driver
    ensures t.On(m)
    ensures success
            <==> forall i :: 0 <= i < t.len && t.list[i].device.phyBase != 0 ==> DevicePasses(m, t.list[i].device)
  {
    hide Scanner.On, Testable, DevicePasses;
    var i := 0;
    while i < t.len
      invariant 0 <= i <= t.len && t.On(m)
      invariant forall j :: 0 <= j < i && t.list[j].device.phyBase != 0 ==> DevicePasses(m, t.list[j].device)
    {
      if t.list[i].device.phyBase != 0 {
        var code := ValidateDevice(t, t.list[i].device, m);
        if code != 0 {
          return false;
        }
      }
      i := i + 1;
    }
    return true;
  }

  /** pci_scan_paint with its validation call: the list of a fresh scan always passes, wherever RAM ends. */
  method ScanAndValidate(t: Scanner, maxBus: nat, ghost m: Machine) returns (success: bool)
    requires t.On(m) && t.Roomy() && maxBus <= 255 && GoodPlatform(m.platform)
    requires m.mmioBase == 0 || m.mmioBase == m.platform.ecam
    modifies t`data, t`len, t.list, t.driver
    ensures t.On(m) && success
  {
    var full := t.ScanPciDevice(maxBus, m);
    ScanDeliversGoodList(m, m.platform, maxBus);
    hide Scanner.On, P.GoodDevice, FoundBelow, FirstOf, GoodPlatform, Testable, DevicePasses, BaseIsRight;
    ghost var found := FirstOf(FoundBelow(m, maxBus * 0x100));
    forall i | 0 <= i < t.len
      ensures Testable(t.list[i].device)
      ensures t.list[i].device.phyBase != 0 ==> DevicePasses(m, t.list[i].device)
    {
      assert t.list[..t.len][i] == found[i] && Devices(found)[i] == found[i].device;
      if t.list[i].device.phyBase != 0 {
        GoodDevicePasses(m, t.list[i].device);
      } else {
        NoBaseIsTestable(m.platform, t.list[i].device);
      }
    }
    success := ValidationPcie(t, m);
  }

  lemma NoBaseIsTestable(p: Platform, d: P.Device)
    requires P.GoodDevice(p, d) && d.phyBase == 0
    ensures Testable(d)
  {
    hide Refused, AlignDown, Addr32;
  }
}
