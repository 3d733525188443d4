/**
 Bus enumeration of lfdk/lib_pci_scan.c: every bus, device and function is probed through the ports with
 one shared request structure, and each PCIe function is given the MMIO base once both mechanisms have
 agreed on its first dword.
 */
module Enumeration {
  import opened Bits
  import opened Words
  import opened AddressCodec
  import opened CachedWindow
  import opened ConfigStore
  import opened PcixDriver
  import C = CapabilityWalk
  import P = PciScreens

  const MAX_PCIBUF: int := 200

  /** What the scan talks to; mmioBase is pcix_mmio_base, 0 if none is known. */
  datatype Machine = Machine(platform: Platform, hw: DriverState, mmioBase: uint64)

  /** PCIData without its texts. */
  datatype Found = Found(device: P.Device, venId: uint16, devId: uint16)

  /** What a read returns: reads leave the hardware as it is and the cached window never shows, so the
      answer depends on the request alone. */
  function Reply(m: Machine, w: Width, req: Request): (r: uint32)
    ensures r < Limit(w)
  {
    hide Addr32, PortRead, PhysRead, Settled, Hit, AlignDown, Refused;
    ReadResult(m.platform, w, Fresh(m.hw), req).1
  }

  function Port(bus: uint8, dev: uint8, fun: uint8, reg: uint16): Request {
    Request(bus, dev, fun, reg, 0, 0)
  }

  /** All word reads of a function through the ports. */
  function PortWords(m: Machine, bus: uint8, dev: uint8, fun: uint8): (words: C.Registers)
    ensures forall i :: 0 <= i < 256 ==> words[i] == Reply(m, Word, Port(bus, dev, fun, i))
  {
    seq(256, i requires 0 <= i < 256 => Reply(m, Word, Port(bus, dev, fun, i)))
  }

  predicate Present(m: Machine, bus: uint8, dev: uint8, fun: uint8) {
    Reply(m, Word, Port(bus, dev, fun, 0)) != 0xffff
  }

  /** The base is given to a function with a PCIe capability whose first dword is not zero and is the
      same through the ports and through MMIO. */
  predicate GetsBase(m: Machine, bus: uint8, dev: uint8, fun: uint8) {
    && m.mmioBase != 0 && C.WalkFinds(PortWords(m, bus, dev, fun))
    && Reply(m, Dword, Port(bus, dev, fun, 0)) != 0
    && Reply(m, Dword, Port(bus, dev, fun, 0).(phyBase := m.mmioBase)) == Reply(m, Dword, Port(bus, dev, fun, 0))
  }

  function EntryAt(m: Machine, bus: uint8, dev: uint8, fun: uint8): Found {
    Found(P.Device(bus, dev, fun, if GetsBase(m, bus, dev, fun) then m.mmioBase else 0),
          Reply(m, Word, Port(bus, dev, fun, 0)), Reply(m, Word, Port(bus, dev, fun, 2)))
  }

  // ---------- the list as a filter over all functions in order ----------

  function Number(bus: int, dev: int, fun: int): int {
    bus * 0x100 + dev * 8 + fun
  }

  predicate PresentAt(m: Machine, n: uint16) {
    Present(m, n / 0x100, n / 8 % 32, n % 8)
  }

  function EntryOf(m: Machine, n: uint16): Found {
    EntryAt(m, n / 0x100, n / 8 % 32, n % 8)
  }

  /** The entries of all present functions with numbers below n, in order. */
  function FoundBelow(m: Machine, n: nat): seq<Found>
    requires n <= 0x1_0000
  {
    if n == 0 then []
    else FoundBelow(m, n - 1) + (if PresentAt(m, n - 1) then [EntryOf(m, n - 1)] else [])
  }

  function FirstOf(list: seq<Found>): seq<Found> {
    if |list| <= MAX_PCIBUF then list else list[..MAX_PCIBUF]
  }

  function NumberOf(f: Found): int {
    Number(f.device.bus, f.device.dev, f.device.fun)
  }

  lemma NumberInverse(bus: uint8, dev: int, fun: int)
    requires 0 <= dev < 32 && 0 <= fun < 8
    ensures var n := Number(bus, dev, fun);
            0 <= n < 0x1_0000 && n / 0x100 == bus && n / 8 % 32 == dev && n % 8 == fun
  {
    var n := Number(bus, dev, fun);
    Divided(n, 0x100, bus, dev * 8 + fun);
    Divided(n, 8, bus * 32 + dev, fun);
    Divided(bus * 32 + dev, 32, bus, dev);
  }

  lemma EntryNumber(m: Machine, n: uint16)
    ensures NumberOf(EntryOf(m, n)) == n
  {
    hide GetsBase, Reply;
    var q := n / 8;
    Divided(n, 0x100, q / 32, q % 32 * 8 + n % 8);
  }

  lemma {:induction false} FoundBelowGrows(m: Machine, k: nat, n: nat)
    requires k <= n <= 0x1_0000
    ensures FoundBelow(m, k) <= FoundBelow(m, n)
    decreases n
  {
    hide PresentAt, EntryOf;
    if k < n {
      FoundBelowGrows(m, k, n - 1);
    }
  }

  /** Every entry is a present function below n, with its own entry. */
  predicate Sound(m: Machine, n: int, list: seq<Found>) {
    forall i :: 0 <= i < |list| ==>
      && 0 <= NumberOf(list[i]) < n <= 0x1_0000
      && PresentAt(m, NumberOf(list[i])) && list[i] == EntryOf(m, NumberOf(list[i]))
  }

  /** Strictly increasing in bus, device and function. */
  predicate Ascending(list: seq<Found>) {
    forall i, j :: 0 <= i < j < |list| ==> NumberOf(list[i]) < NumberOf(list[j])
  }

  lemma {:induction false} ListIsSound(m: Machine, n: nat)
    requires n <= 0x1_0000
    ensures Sound(m, n, FoundBelow(m, n)) && Ascending(FoundBelow(m, n))
    decreases n
  {
    hide PresentAt, EntryOf, NumberOf;
    if n > 0 {
      ListIsSound(m, n - 1);
      EntryNumber(m, n - 1);
      var init, list := FoundBelow(m, n - 1), FoundBelow(m, n);
      assert forall i :: 0 <= i < |list| ==> list[i] == if i < |init| then init[i] else EntryOf(m, n - 1);
    }
  }

  /** And it holds all of them. */
  lemma {:induction false} ListIsComplete(m: Machine, n: nat, k: nat)
    requires k < n <= 0x1_0000
    ensures PresentAt(m, k) <==> EntryOf(m, k) in FoundBelow(m, n)
    decreases n
  {
    hide PresentAt, EntryOf;
    if k < n - 1 {
      ListIsComplete(m, n - 1, k);
      EntryNumber(m, n - 1);
      EntryNumber(m, k);
    } else {
      NotYetListed(m, k);
    }
  }

  lemma NotYetListed(m: Machine, k: uint16)
    ensures EntryOf(m, k) !in FoundBelow(m, k)
  {
    hide PresentAt, EntryOf, FoundBelow, NumberOf;
    if i :| 0 <= i < |FoundBelow(m, k)| && FoundBelow(m, k)[i] == EntryOf(m, k) {
      ListIsSound(m, k);
      EntryNumber(m, k);
    }
  }

  // ---------- the scan ----------

  class Scanner {
    const driver: Driver
    const mmioBase: uint64
    const list: array<Found>
    var len: nat
    var data: Request   // lfdd_pci_data, shared by every probe

    constructor (driver: Driver, mmioBase: uint64)
      ensures this.driver == driver && this.mmioBase == mmioBase && len == 0
      ensures fresh(list) && Roomy()
    {
      this.driver, this.mmioBase, len := driver, mmioBase, 0;
      data := Port(0, 0, 0, 0);
      list := new Found[MAX_PCIBUF](_ => Found(P.Device(0, 0, 0, 0), 0, 0));
    }

    /** The zeroed global array: without a known base no entry has one. */
    ghost predicate Roomy()
      reads list
    {
      list.Length == MAX_PCIBUF && (mmioBase == 0 ==> forall i :: 0 <= i < MAX_PCIBUF ==> list[i].device.phyBase == 0)
    }

    ghost predicate On(m: Machine)
      reads this, driver
    {
      && driver.platform == m.platform && mmioBase == m.mmioBase
      && Valid(driver.State()) && Fresh(driver.State()) == Fresh(m.hw)
    }

    /** One read request to the driver; the answer replaces buf. */
    method Ioctl(w: Width, ghost m: Machine)
      requires On(m)
      modifies this`data, driver
      ensures On(m) && data == old(data).(buf := Reply(m, w, Plain(old(data))))
    {
      ReadIsFresh(driver.platform, w, driver.State(), data);
      BufIgnored(m, w, data);
      hide ReadResult, Valid;
      var value := driver.Read(w, data);
      data := data.(buf := value);
    }

    /** AssignMMIOBase for the function the shared request names; returns the entry's phy_base. */
    method AssignMmioBase(ghost m: Machine) returns (phyBase: uint64)
      requires On(m) && mmioBase != 0 && data.phyBase == 0
      modifies this`data, driver
      ensures On(m)
      ensures phyBase == if GetsBase(m, old(data.bus), old(data.dev), old(data.fun)) then mmioBase else 0
    {
      hide Reply, Valid, Fresh, C.Walk;
      ghost var bus, dev, fun := data.bus, data.dev, data.fun;
      ghost var words := PortWords(m, bus, dev, fun);
      phyBase := 0;
      var id: uint8, next: uint8 := FirstCapability(m);
      var limit := C.WALK_LIMIT;
      while limit != 0 && next != 0 && id != C.CAP_ID_PCIE
        invariant On(m) && Plain(data) == Port(bus, dev, fun, data.reg)
        invariant C.Walk(words, id, next, limit)
                    == C.Walk(words, C.Id(words, C.First(words)), C.NextOf(words, C.First(words)), C.WALK_LIMIT)
      {
        WalkStep(words, id, next, limit);
        limit := limit - 1;
        data := data.(reg := next);
        Ioctl(Word, m);
        id, next := data.buf % 0x100, data.buf / 0x100;
      }
      WalkStops(words, id, next, limit);
      if id == C.CAP_ID_PCIE {
        data := data.(reg := 0, phyBase := 0, buf := 0);
        Ioctl(Dword, m);
        var first := data.buf;
        if first == 0 {
          return;
        }
        data := data.(reg := 0, phyBase := mmioBase, buf := 0);
        Ioctl(Dword, m);
        if first == data.buf {
          phyBase := mmioBase;
        }
      }
    }

    /** The capability pointer and the first capability, read unconditionally. */
    method FirstCapability(ghost m: Machine) returns (id: uint8, next: uint8)
      requires On(m) && data.phyBase == 0
      modifies this`data, driver
      ensures On(m) && Plain(data) == Port(old(data.bus), old(data.dev), old(data.fun), data.reg)
      ensures var words := PortWords(m, data.bus, data.dev, data.fun);
              id == C.Id(words, C.First(words)) && next == C.NextOf(words, C.First(words))
    {
      hide Reply, Valid, Fresh;
      data := data.(reg := C.CAP_REG);
      Ioctl(Word, m);
      data := data.(reg := data.buf % 0x100);
      Ioctl(Word, m);
      id, next := data.buf % 0x100, data.buf / 0x100;
    }

    /** The body of the scan's loops. */
    method Probe(ghost m: Machine, bus: uint8, dev: uint8, fun: uint8)
      requires On(m) && Roomy() && len < MAX_PCIBUF
      modifies this`data, this`len, list, driver
      ensures On(m) && Roomy()
      ensures len == old(len) + if Present(m, bus, dev, fun) then 1 else 0
      ensures list[..len] == old(list[..len]) + if Present(m, bus, dev, fun) then [EntryAt(m, bus, dev, fun)] else []
    {
      hide Reply, Valid, Fresh, GetsBase;
      data := Request(bus, dev, fun, 0, 0, data.buf);
      Ioctl(Word, m);
      if data.buf % 0x1_0000 != 0xffff {
        var venId: uint16 := data.buf % 0x1_0000;
        data := data.(reg := data.reg + 2);
        Ioctl(Word, m);
        list[len] := Found(P.Device(bus, dev, fun, list[len].device.phyBase), venId, data.buf % 0x1_0000);
        if mmioBase != 0 {
          var phyBase := AssignMmioBase(m);
          list[len] := list[len].(device := list[len].device.(phyBase := phyBase));
        }
        len := len + 1;
        assert list[..len] == list[..len - 1] + [list[len - 1]];
      }
    }

    /** The list while the scan stands before function number n. */
    ghost predicate Listed(m: Machine, n: int)
      reads this, list, driver
    {
      On(m) && Roomy() && len <= MAX_PCIBUF && 0 <= n <= 0x1_0000 && list[..len] == FoundBelow(m, n)
    }

    /** One iteration of the innermost loop. */
    method Visit(ghost m: Machine, bus: uint8, dev: uint8, fun: uint8) returns (full: bool)
      requires dev < 32 && fun < 8 && Listed(m, Number(bus, dev, fun)) && len < MAX_PCIBUF
      modifies this`data, this`len, list, driver
      ensures Listed(m, Number(bus, dev, fun + 1)) && len <= MAX_PCIBUF && full == (len == MAX_PCIBUF)
    {
      Probe(m, bus, dev, fun);
      hide Scanner.On, Scanner.Roomy, FoundBelow, Present, EntryAt;
      FoundBelowNext(m, bus, dev, fun);
      full := len >= MAX_PCIBUF;
    }

    /** The two inner loops of the scan: one bus. */
    method ScanBus(ghost m: Machine, bus: uint8) returns (full: bool, ghost n: int)
      requires Listed(m, bus * 0x100) && len < MAX_PCIBUF
      modifies this`data, this`len, list, driver
      ensures Listed(m, n) && n <= (bus + 1) * 0x100 && len <= MAX_PCIBUF && full == (len == MAX_PCIBUF)
      ensures !full ==> n == (bus + 1) * 0x100
    {
      var dev, fun := 0, 0;
      BusNumber(bus);
      BusNumber(bus + 1);
      hide *;
      while dev <= 0x1f
        invariant 0 <= dev <= 0x20 && Listed(m, Number(bus, dev, 0)) && len < MAX_PCIBUF
      {
        fun := 0;
        while fun <= 0x07
          invariant 0 <= fun <= 8 && Listed(m, Number(bus, dev, fun)) && len < MAX_PCIBUF
        {
          full := Visit(m, bus, dev, fun);
          if full {
            NextDevice(bus, dev, fun + 1);
            return true, Number(bus, dev, fun + 1);
          }
          fun := fun + 1;
        }
        NextDevice(bus, dev, 8);
        dev := dev + 1;
      }
      NextDevice(bus, 31, 8);
      return false, (bus + 1) * 0x100;
    }

    method Clear(ghost m: Machine) returns (ghost n: int)
      requires On(m) && Roomy()
      modifies this`len
      ensures len == 0 && Listed(m, n) && n == 0
    {
      n := 0;
      len := 0;
      FoundBelowZero(m);
    }

    /** ScanPCIDevice; true if it gave up because the array is full. */
    method ScanPciDevice(maxBus: nat, ghost m: Machine) returns (full: bool)
      requires On(m) && Roomy() && maxBus <= 255
      modifies this`data, this`len, list, driver
      ensures On(m) && Roomy() && len <= MAX_PCIBUF
      ensures list[..len] == FirstOf(FoundBelow(m, maxBus * 0x100))
      ensures full <==> |FoundBelow(m, maxBus * 0x100)| >= MAX_PCIBUF
      ensures BaseIsDecoded(m) ==> forall i :: 0 <= i < len ==> BaseIsRight(m, list[i])
    {
      ghost var n := Clear(m);
      var bus := 0;
      hide *;
      while bus < maxBus
        invariant 0 <= bus <= maxBus && n == bus * 0x100 && Listed(m, n) && len < MAX_PCIBUF
      {
        full, n := ScanBus(m, bus);
        if full {
          ListedIsFirst(m, n, maxBus * 0x100);
          return;
        }
        bus := bus + 1;
      }
      ListedIsFirst(m, n, maxBus * 0x100);
      return false;
    }

    lemma ListedIsFirst(m: Machine, n: int, total: int)
      requires Listed(m, n) && n <= total <= 0x1_0000 && (n == total || len == MAX_PCIBUF)
      ensures On(m) && Roomy() && len <= MAX_PCIBUF
      ensures list[..len] == FirstOf(FoundBelow(m, total))
      ensures len == MAX_PCIBUF <==> |FoundBelow(m, total)| >= MAX_PCIBUF
      ensures BaseIsDecoded(m) ==> forall i :: 0 <= i < len ==> BaseIsRight(m, list[i])
    {
      hide FoundBelow, Number, Scanner.On, BaseIsDecoded, BaseIsRight;
      FoundBelowGrows(m, n, total);
      if BaseIsDecoded(m) {
        ListHasRightBases(m, total);
        assert forall i :: 0 <= i < len ==> list[i] == list[..len][i] && list[..len][i] == FoundBelow(m, total)[i];
      }
    }
  }

  /** A request with an empty buf; what a read returns does not depend on it. */
  function Plain(req: Request): Request {
    req.(buf := 0)
  }

  lemma BufIgnored(m: Machine, w: Width, req: Request)
    ensures ReadResult(m.platform, w, Fresh(m.hw), req).1 == Reply(m, w, Plain(req))
  {
    assert Addr32(req) == Addr32(Plain(req)) by { hide Or; }
    hide Addr32, PortRead, PhysRead, Settled, Hit, AlignDown, Refused, Extracted;
  }

  lemma WalkStep(words: C.Registers, id: uint8, next: uint8, limit: nat)
    requires limit != 0 && next != 0 && id != C.CAP_ID_PCIE
    ensures C.Walk(words, id, next, limit) == C.Walk(words, C.Id(words, next), C.NextOf(words, next), limit - 1)
  {}

  lemma WalkStops(words: C.Registers, id: uint8, next: uint8, limit: nat)
    requires limit == 0 || next == 0 || id == C.CAP_ID_PCIE
    ensures C.Walk(words, id, next, limit) == id
  {}

  /** The numbering carries over from one device, and one bus, to the next. */
  lemma NextDevice(bus: int, dev: int, fun: int)
    ensures Number(bus, dev, 8) == Number(bus, dev + 1, 0) && Number(bus, 32, 0) == Number(bus + 1, 0, 0)
    ensures dev < 32 && fun <= 8 ==> Number(bus, dev, fun) <= Number(bus + 1, 0, 0)
  {}

  lemma BusNumber(bus: int)
    ensures Number(bus, 0, 0) == bus * 0x100
  {}

  lemma FoundBelowZero(m: Machine)
    ensures FoundBelow(m, 0) == []
  {}

  lemma FoundBelowNext(m: Machine, bus: uint8, dev: int, fun: int)
    requires 0 <= dev < 32 && 0 <= fun < 8
    ensures 0 <= Number(bus, dev, fun) < Number(bus, dev, fun + 1) <= 0x1_0000
    ensures FoundBelow(m, Number(bus, dev, fun + 1))
            == FoundBelow(m, Number(bus, dev, fun))
               + if Present(m, bus, dev, fun) then [EntryAt(m, bus, dev, fun)] else []
  {
    hide Present, EntryAt;
    NumberInverse(bus, dev, fun);
  }

  // ---------- what the entries mean ----------

  /** What a probe through the ports returns: a selection from the dword that holds the register. */
  function Selection(m: Machine, w: Width, bus: uint8, dev: uint8, fun: uint8, reg: uint8): uint32 {
    var key := Key(bus, dev, fun, reg);
    Extracted(w, m.hw.config[key / 4], key % 4)
  }

  lemma PortBranch(p: Platform, w: Width, s: DriverState, req: Request)
    requires req.phyBase == 0
    ensures var a := Addr32(req);
            ReadResult(p, w, s, req) == (s, Extracted(w, PortRead(s.config, a - a % 4), a % 4))
  {
    hide Addr32, Extracted, PortRead;
  }

  lemma OpenPort(config: Store, index: uint32)
    requires index >= 0x8000_0000
    ensures PortRead(config, index) == config[IndexDword(index)]
  {
    hide IndexDword;
  }

  lemma PortSelects(m: Machine, w: Width, bus: uint8, dev: uint8, fun: uint8, reg: uint8)
    requires dev < 32 && fun < 8
    ensures Reply(m, w, Port(bus, dev, fun, reg)) == Selection(m, w, bus, dev, fun, reg)
  {
    var req := Port(bus, dev, fun, reg);
    assert KeyOf(req) == Key(bus, dev, fun, reg) && InRange(req);
    hide Addr32, Extracted, IndexDword, PortRead, KeyOf, Key, ReadResult;
    PortTarget(req);
    PortBranch(m.platform, w, Fresh(m.hw), req);
    var index: uint32 := Addr32(req) - Addr32(req) % 4;
    OpenPort(m.hw.config, index);
  }

  /** A probe through the ports returns the bytes of the function's registers. */
  lemma ProbeReadsBytes(m: Machine, w: Width, bus: uint8, dev: uint8, fun: uint8, reg: uint8)
    requires GoodPlatform(m.platform) && dev < 32 && fun < 8 && Aligned(w, reg)
    ensures Reply(m, w, Port(bus, dev, fun, reg)) == ReadBytes(w, View(m.hw.config), Key(bus, dev, fun, reg))
  {
    hide GoodPlatform, ReadResult, ReadBytes, View, ReadAt;
    ReadAgrees(m.platform, Fresh(m.hw), w, Port(bus, dev, fun, reg));
    SameAlignment(w, Port(bus, dev, fun, reg));
    AlignedIsPlain(w, View(m.hw.config), Key(bus, dev, fun, reg), 0);
  }

  /** Ids are the first four bytes of configuration space, and a function is listed unless its vendor
      word is 0xffff. */
  lemma IdsAreConfigBytes(m: Machine, bus: uint8, dev: uint8, fun: uint8)
    requires GoodPlatform(m.platform) && dev < 32 && fun < 8
    ensures var b, f := View(m.hw.config), EntryAt(m, bus, dev, fun);
            && f.venId == ReadBytes(Word, b, Key(bus, dev, fun, 0))
            && f.devId == ReadBytes(Word, b, Key(bus, dev, fun, 2))
            && (Present(m, bus, dev, fun) <==> ReadBytes(Word, b, Key(bus, dev, fun, 0)) != 0xffff)
  {
    hide Reply, ReadBytes, View, GoodPlatform, GetsBase;
    ProbeReadsBytes(m, Word, bus, dev, fun, 0);
    ProbeReadsBytes(m, Word, bus, dev, fun, 2);
  }

  /** The guard lets the first dword of a function through to MMIO. */
  predicate Served(m: Machine, bus: uint8, dev: uint8, fun: uint8) {
    !Refused(m.platform, AlignDown(Addr32(Port(bus, dev, fun, 0).(phyBase := m.mmioBase))))
  }

  /** On a platform that decodes the base the two mechanisms do agree, unless the guard answers with all
      ones. */
  lemma FirstDword(m: Machine, bus: uint8, dev: uint8, fun: uint8)
    requires GoodPlatform(m.platform) && m.mmioBase == m.platform.ecam && dev < 32 && fun < 8
    ensures Reply(m, Dword, Port(bus, dev, fun, 0).(phyBase := m.mmioBase))
            == if Served(m, bus, dev, fun) then Reply(m, Dword, Port(bus, dev, fun, 0)) else 0xffff_ffff
  {
    hide ReadBytes, View, Refused, AlignDown, Addr32, PhysRead, Hit, Settled, Extracted;
    var req := Port(bus, dev, fun, 0).(phyBase := m.mmioBase);
    ProbeReadsBytes(m, Dword, bus, dev, fun, 0);
    if Served(m, bus, dev, fun) {
      assert Valid(Fresh(m.hw));
      hide Valid, GoodPlatform, ReadResult;
      ReadAgrees(m.platform, Fresh(m.hw), Dword, req);
    }
  }

  /** There, a function gets the base exactly if the unlimited walk along its 4-aligned chain reaches a
      PCIe capability, its first dword is not zero, and the guard lets MMIO through - or the first dword is
      all ones, which is what the guard answers. */
  lemma GetsBaseIffPcie(m: Machine, bus: uint8, dev: uint8, fun: uint8)
    requires GoodPlatform(m.platform) && m.mmioBase == m.platform.ecam && dev < 32 && fun < 8
    requires C.AlignedChain(PortWords(m, bus, dev, fun))
    ensures var first := ReadBytes(Dword, View(m.hw.config), Key(bus, dev, fun, 0));
            GetsBase(m, bus, dev, fun)
            <==> C.Reachable(PortWords(m, bus, dev, fun)) && first != 0
                 && (Served(m, bus, dev, fun) || first == 0xffff_ffff)
  {
    FirstDword(m, bus, dev, fun);
    ProbeReadsBytes(m, Dword, bus, dev, fun, 0);
    hide Reply, ReadBytes, View, Served, C.WalkFinds, C.Reachable, C.AlignedChain;
    C.BoundedWalkIsComplete(PortWords(m, bus, dev, fun));
  }

  /** The dword a function with a vendor id starts with is not all ones. */
  lemma PresentFirstDword(m: Machine, bus: uint8, dev: uint8, fun: uint8)
    requires dev < 32 && fun < 8 && Present(m, bus, dev, fun)
    ensures Reply(m, Dword, Port(bus, dev, fun, 0)) != 0xffff_ffff
  {
    PortSelects(m, Word, bus, dev, fun, 0);
    PortSelects(m, Dword, bus, dev, fun, 0);
    var l := m.hw.config[Key(bus, dev, fun, 0) / 4];
    FirstKey(bus, dev, fun);
    hide Reply, Key;
  }

  lemma FirstKey(bus: uint8, dev: uint8, fun: uint8)
    ensures Key(bus, dev, fun, 0) % 4 == 0
  {
    Divided(Key(bus, dev, fun, 0), 4, bus * 0x4_0000 + dev * 0x2000 + fun * 0x400, 0);
  }

  /** Under any base the guard answers with all ones. */
  lemma GuardAnswers(m: Machine, bus: uint8, dev: uint8, fun: uint8)
    requires m.mmioBase != 0 && !Served(m, bus, dev, fun)
    ensures Reply(m, Dword, Port(bus, dev, fun, 0).(phyBase := m.mmioBase)) == 0xffff_ffff
  {
    hide Refused, AlignDown, Addr32, PhysRead, Hit, Settled, Extracted;
  }

  /** The scan's own check discharges the guard: whatever base it is given, decoded or not, a present function
      that gets it passes the guard. */
  lemma PresentGetsBaseIsServed(m: Machine, bus: uint8, dev: uint8, fun: uint8)
    requires dev < 32 && fun < 8 && Present(m, bus, dev, fun) && GetsBase(m, bus, dev, fun)
    ensures Served(m, bus, dev, fun)
  {
    PresentFirstDword(m, bus, dev, fun);
    hide Served, Reply, Present;
    if !Served(m, bus, dev, fun) {
      GuardAnswers(m, bus, dev, fun);
    }
  }

  /** The configuration bytes and the end of RAM decide which base a listed function has: the one the platform
      decodes, if the function's chain reaches a PCIe capability, its first dword is not zero and its first
      window reaches past RAM, and otherwise none. */
  ghost predicate RightBase(m: Machine, d: P.Device)
    requires d.dev < 32 && d.fun < 8
  {
    var key := Key(d.bus, d.dev, d.fun, 0);
    d.phyBase == if && m.mmioBase != 0 && C.Reachable(PortWords(m, d.bus, d.dev, d.fun))
                    && ReadBytes(Dword, View(m.hw.config), key) != 0
                    && m.platform.ecam + key + MASSBUF > m.platform.ramTop
                 then m.platform.ecam else 0
  }

  ghost predicate BaseIsRight(m: Machine, f: Found) {
    var d := f.device;
    d.dev < 32 && d.fun < 8 && (C.AlignedChain(PortWords(m, d.bus, d.dev, d.fun)) ==> RightBase(m, d))
  }

  predicate BaseIsDecoded(m: Machine) {
    GoodPlatform(m.platform) && (m.mmioBase == 0 || m.mmioBase == m.platform.ecam)
  }

  lemma ServedIff(m: Machine, bus: uint8, dev: uint8, fun: uint8)
    requires GoodPlatform(m.platform) && m.mmioBase == m.platform.ecam && dev < 32 && fun < 8
    ensures Served(m, bus, dev, fun) <==> m.platform.ecam + Key(bus, dev, fun, 0) + MASSBUF > m.platform.ramTop
  {
    var req := Port(bus, dev, fun, 0).(phyBase := m.mmioBase);
    assert KeyOf(req) == Key(bus, dev, fun, 0);
    RefusedIff(m.platform, req);
    KeyRange(req);
    EcamBulkAddress(m.platform, req);
    FirstWindow(m.platform.ecam, Key(bus, dev, fun, 0));
    hide Refused, AlignDown, Addr32, KeyOf, Key;
  }

  lemma FirstWindow(base: int, key: int)
    requires base % MASSBUF == 0 && key % MASSBUF == 0
    ensures (base + key) % MASSBUF == 0
  {
    Divided(base + key, MASSBUF, base / MASSBUF + key / MASSBUF, 0);
  }

  lemma EntryHasRightBase(m: Machine, bus: uint8, dev: uint8, fun: uint8)
    requires BaseIsDecoded(m) && dev < 32 && fun < 8 && Present(m, bus, dev, fun)
    requires C.AlignedChain(PortWords(m, bus, dev, fun))
    ensures RightBase(m, EntryAt(m, bus, dev, fun).device)
  {
    hide C.AlignedChain, C.Reachable, C.WalkFinds, Reply, ReadBytes, View, Served, PortWords, Key;
    if m.mmioBase != 0 {
      ServedIff(m, bus, dev, fun);
      GetsBaseIffPcie(m, bus, dev, fun);
      PresentFirstDword(m, bus, dev, fun);
      ProbeReadsBytes(m, Dword, bus, dev, fun, 0);
      hide GetsBase, Present;
    }
  }

  /** Every function in the list has the right base. */
  lemma ListHasRightBases(m: Machine, n: nat)
    requires BaseIsDecoded(m) && n <= 0x1_0000
    ensures forall f :: f in FoundBelow(m, n) ==> BaseIsRight(m, f)
  {
    ListIsSound(m, n);
    hide FoundBelow, NumberOf, Ascending, BaseIsDecoded, RightBase, PortWords, C.AlignedChain;
    forall f | f in FoundBelow(m, n)
      ensures BaseIsRight(m, f)
    {
      var k := NumberOf(f);
      assert f == EntryOf(m, k) && PresentAt(m, k);
      hide EntryAt, Present;
      EntryIsSomewhere(m, k);
      if C.AlignedChain(PortWords(m, k / 0x100, k / 8 % 32, k % 8)) {
        EntryHasRightBase(m, k / 0x100, k / 8 % 32, k % 8);
      }
    }
  }

  lemma EntryIsSomewhere(m: Machine, k: uint16)
    ensures var d := EntryOf(m, k).device;
            d.bus == k / 0x100 && d.dev == k / 8 % 32 && d.fun == k % 8
  {
    hide GetsBase, Reply;
  }

  // ---------- the words the walk reads ----------

  /** The configuration bytes of a function, as byte reads return them. */
  function FunctionBytes(m: Machine, bus: uint8, dev: uint8, fun: uint8): (bytes: C.Bytes)
    ensures forall i :: 0 <= i < 256 ==> bytes[i] == Reply(m, Byte, Port(bus, dev, fun, i))
  {
    seq(256, i requires 0 <= i < 256 => Reply(m, Byte, Port(bus, dev, fun, i)))
  }

  lemma WordOfBytes(l: Lanes, n: int)
    requires 0 <= n < 4
    ensures Extracted(Word, l, n) == C.Pair(Extracted(Byte, l, n), if n == 3 then 0 else Extracted(Byte, l, n + 1))
  {}

  lemma SameDwordNext(bus: uint8, dev: uint8, fun: uint8, reg: int)
    requires 0 <= reg < 256
    ensures Key(bus, dev, fun, reg) % 4 == reg % 4
    ensures var k, next := Key(bus, dev, fun, reg), Key(bus, dev, fun, reg + 1);
            reg % 4 != 3 ==> next / 4 == k / 4 && next % 4 == k % 4 + 1
  {
    var k, h := Key(bus, dev, fun, reg), bus * 0x4_0000 + dev * 0x2000 + fun * 0x400;
    Divided(k, 4, h + reg / 4, reg % 4);
    if reg % 4 != 3 {
      Divided(k + 1, 4, h + reg / 4, reg % 4 + 1);
    }
  }

  lemma WordAtRegister(m: Machine, bus: uint8, dev: uint8, fun: uint8, i: int)
    requires dev < 32 && fun < 8 && 0 <= i < 256
    ensures PortWords(m, bus, dev, fun)[i] == C.WordsOf(FunctionBytes(m, bus, dev, fun))[i]
  {
    hide Reply, Extracted, Key;
    PortSelects(m, Word, bus, dev, fun, i);
    PortSelects(m, Byte, bus, dev, fun, i);
    SameDwordNext(bus, dev, fun, i);
    var key := Key(bus, dev, fun, i);
    WordOfBytes(m.hw.config[key / 4], key % 4);
    if i % 4 != 3 {
      PortSelects(m, Byte, bus, dev, fun, i + 1);
    }
  }

  /** The words of a function are those of its bytes. */
  lemma WordsAreBytes(m: Machine, bus: uint8, dev: uint8, fun: uint8)
    requires dev < 32 && fun < 8
    ensures PortWords(m, bus, dev, fun) == C.WordsOf(FunctionBytes(m, bus, dev, fun))
  {
    hide PortWords, FunctionBytes, C.WordsOf;
    forall i | 0 <= i < 256
      ensures PortWords(m, bus, dev, fun)[i] == C.WordsOf(FunctionBytes(m, bus, dev, fun))[i]
    {
      WordAtRegister(m, bus, dev, fun, i);
    }
  }

  /** Dword i of a configuration space that holds these bytes from dword first on, and zeros elsewhere. */
  function DwordOf(bytes: C.Bytes, first: int, i: int): Lanes {
    var k := i - first;
    if 0 <= k < 64 then Lanes(bytes[4 * k], bytes[4 * k + 1], bytes[4 * k + 2], bytes[4 * k + 3]) else Lanes(0, 0, 0, 0)
  }

  ghost function WithFunction(m: Machine, bus: uint8, dev: uint8, fun: uint8, bytes: C.Bytes): (m': Machine)
    ensures forall i: int :: m'.hw.config[i] == DwordOf(bytes, Key(bus, dev, fun, 0) / 4, i)
  {
    var config: imap<int, Lanes> := imap i: int :: DwordOf(bytes, Key(bus, dev, fun, 0) / 4, i);
    assert EveryDword(config);
    m.(hw := m.hw.(config := config))
  }

  lemma ByteOfFunction(m: Machine, bus: uint8, dev: uint8, fun: uint8, bytes: C.Bytes, i: int)
    requires dev < 32 && fun < 8 && 0 <= i < 256
    ensures Reply(WithFunction(m, bus, dev, fun, bytes), Byte, Port(bus, dev, fun, i)) == bytes[i]
  {
    var m', key := WithFunction(m, bus, dev, fun, bytes), Key(bus, dev, fun, i);
    PortSelects(m', Byte, bus, dev, fun, i);
    KeyDword(bus, dev, fun, i);
    LaneOfDword(bytes, Key(bus, dev, fun, 0) / 4, i);
    assert m'.hw.config[key / 4] == DwordOf(bytes, Key(bus, dev, fun, 0) / 4, key / 4);
    hide Reply, Key, WithFunction, DwordOf;
  }

  lemma LaneOfDword(bytes: C.Bytes, first: int, i: int)
    requires 0 <= i < 256
    ensures Extracted(Byte, DwordOf(bytes, first, first + i / 4), i % 4) == bytes[i]
  {
    assert i == 4 * (i / 4) + i % 4;
  }

  lemma KeyDword(bus: uint8, dev: uint8, fun: uint8, i: int)
    requires 0 <= i < 256
    ensures Key(bus, dev, fun, i) / 4 == Key(bus, dev, fun, 0) / 4 + i / 4 && Key(bus, dev, fun, i) % 4 == i % 4
  {
    var h := bus * 0x4_0000 + dev * 0x2000 + fun * 0x400;
    Divided(Key(bus, dev, fun, i), 4, h + i / 4, i % 4);
    Divided(Key(bus, dev, fun, 0), 4, h, 0);
  }

  /** And any bytes are those of a function of some machine. */
  lemma EveryBytesAreAFunction(m: Machine, bus: uint8, dev: uint8, fun: uint8, bytes: C.Bytes)
    requires dev < 32 && fun < 8
    ensures FunctionBytes(WithFunction(m, bus, dev, fun, bytes), bus, dev, fun) == bytes
  {
    hide Reply, WithFunction, FunctionBytes;
    var m' := WithFunction(m, bus, dev, fun, bytes);
    forall i | 0 <= i < 256
      ensures FunctionBytes(m', bus, dev, fun)[i] == bytes[i]
    {
      ByteOfFunction(m, bus, dev, fun, bytes, i);
    }
  }

  /** The walk is complete for every function of every machine whose chain keeps to n offsets. */
  ghost predicate WalkIsCompleteOn(n: nat) {
    forall m: Machine, bus: uint8, dev: uint8, fun: uint8, offsets: set<int> ::
      dev < 32 && fun < 8 && C.Within(PortWords(m, bus, dev, fun), offsets) && |offsets| <= n
      ==> (C.WalkFinds(PortWords(m, bus, dev, fun)) <==> C.Reachable(PortWords(m, bus, dev, fun)))
  }

  /** That is so if and only if n is at most 65. */
  lemma WalkIsCompleteIff(m: Machine, n: nat)
    ensures WalkIsCompleteOn(n) <==> n <= C.WALK_LIMIT + 1
  {
    hide PortWords, C.WalkFinds, C.Reachable, C.Within, C.WordsOf, C.LongChain, WithFunction, FunctionBytes;
    if n <= C.WALK_LIMIT + 1 {
      forall m: Machine, bus: uint8, dev: uint8, fun: uint8, offsets: set<int> |
        dev < 32 && fun < 8 && C.Within(PortWords(m, bus, dev, fun), offsets) && |offsets| <= n
        ensures C.WalkFinds(PortWords(m, bus, dev, fun)) <==> C.Reachable(PortWords(m, bus, dev, fun))
      {
        C.WalkCoversOffsets(PortWords(m, bus, dev, fun), offsets);
      }
    } else {
      var offsets := C.UnalignedChainIsCutShort();
      var m' := WithFunction(m, 0, 0, 0, C.LongChain());
      EveryBytesAreAFunction(m, 0, 0, 0, C.LongChain());
      WordsAreBytes(m', 0, 0, 0);
      assert C.Within(PortWords(m', 0, 0, 0), offsets) && |offsets| <= n;
    }
  }

  function Devices(list: seq<Found>): (ds: seq<P.Device>)
    ensures |ds| == |list| && forall i :: 0 <= i < |list| ==> ds[i] == list[i].device
  {
    seq(|list|, i requires 0 <= i < |list| => list[i].device)
  }

  /** The list names this function. */
  predicate Names(list: seq<P.Device>, bus: int, dev: int, fun: int) {
    exists i :: 0 <= i < |list| && list[i].bus == bus && list[i].dev == dev && list[i].fun == fun
  }

  /** As long as the array is not full the scan names exactly the present functions. */
  lemma ScanNamesPresent(m: Machine, maxBus: nat, bus: uint8, dev: uint8, fun: uint8)
    requires maxBus <= 255 && bus < maxBus && dev < 32 && fun < 8
    requires |FirstOf(FoundBelow(m, maxBus * 0x100))| < MAX_PCIBUF
    ensures Names(Devices(FirstOf(FoundBelow(m, maxBus * 0x100))), bus, dev, fun) <==> Present(m, bus, dev, fun)
  {
    var n, k := maxBus * 0x100, Number(bus, dev, fun);
    var list := FoundBelow(m, n);
    NumberInverse(bus, dev, fun);
    ListIsComplete(m, n, k);
    ListIsSound(m, n);
    assert FirstOf(list) == list;
    var ds := Devices(list);
    hide FoundBelow, Ascending, EntryAt, Present, FirstOf;
    if PresentAt(m, k) {
      var i :| 0 <= i < |list| && list[i] == EntryOf(m, k);
      EntryIsSomewhere(m, k);
      assert ds[i].bus == bus && ds[i].dev == dev && ds[i].fun == fun;
    }
    if i :| 0 <= i < |ds| && ds[i].bus == bus && ds[i].dev == dev && ds[i].fun == fun {
      assert ds[i] == list[i].device && NumberOf(list[i]) == k;
    }
  }

  /** A platform that looks the same to the guard, and decodes the base if there is one. */
  predicate SameGuard(m: Machine, q: Platform) {
    q.ramTop == m.platform.ramTop && GoodPlatform(q) && (m.mmioBase == 0 || m.mmioBase == q.ecam)
  }

  lemma EntryIsGood(m: Machine, q: Platform, n: int)
    requires 0 <= n < 0xff00 && SameGuard(m, q) && PresentAt(m, n)
    ensures P.GoodDevice(q, EntryOf(m, n).device)
  {
    hide GetsBase, Reply, AlignDown, Addr32, Present;
    if GetsBase(m, n / 0x100, n / 8 % 32, n % 8) && m.mmioBase != 0 {
      PresentGetsBaseIsServed(m, n / 0x100, n / 8 % 32, n % 8);
    }
  }

  lemma GoodDevices(p: Platform, list: seq<Found>)
    requires forall i :: 0 <= i < |list| ==> P.GoodDevice(p, list[i].device)
    ensures P.GoodList(p, Devices(FirstOf(list)))
  {
    hide P.GoodDevice;
    var ds := Devices(FirstOf(list));
    assert forall i :: 0 <= i < |ds| ==> ds[i] == list[i].device;
  }

  /** The scan delivers what the PCI screens rely on, under any aligned base, whether the platform decodes
      it or not. */
  lemma ScanDeliversGoodList(m: Machine, q: Platform, maxBus: nat)
    requires maxBus <= 255 && SameGuard(m, q)
    ensures P.GoodList(q, Devices(FirstOf(FoundBelow(m, maxBus * 0x100))))
  {
    hide FoundBelow, PresentAt, EntryOf, NumberOf, Ascending, P.GoodDevice, FirstOf, SameGuard;
    var n := maxBus * 0x100;
    var list := FoundBelow(m, n);
    forall i | 0 <= i < |list|
      ensures P.GoodDevice(q, list[i].device)
    {
      ListIsSound(m, n);
      EntryIsGood(m, q, NumberOf(list[i]));
    }
    GoodDevices(q, list);
  }
}
