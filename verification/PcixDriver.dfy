/**
 The seven accessors of lfdd/libpci_x86.c over an explicit hardware model: one configuration space
 reached through the CF8/CFC port pair and through the ECAM region of physical memory, and the one
 cached 256-byte ioremap window the accessors keep in globals.
 */
module PcixDriver {
  import opened Bits
  import opened Words
  import opened AddressCodec

  // ---------- hardware ----------

  /** Where the host bridge decodes ECAM, and the first physical address past RAM
      (virt_to_phys(high_memory)). */
  datatype Platform = Platform(ecam: uint32, ramTop: uint64)

  /** A mapping made by ioremap knows its own physical start; a load through it cannot know which
      address the caller had in mind. */
  datatype Window = Unmapped | Mapped(start: uint32)

  datatype DriverState = DriverState(
    config: Store,     // configuration space, by configuration offset
    ram: Store,        // every other physical address
    cf8: uint32,       // the index register
    window: Window,    // phy2virt_mem
    mapStart: uint64)  // phy_map_start_addr

  const MASSBUF: int := 256

  const ALL_ONES := Lanes(0xff, 0xff, 0xff, 0xff)

  /** The dword of configuration space a CF8 value selects. */
  function IndexDword(index: uint32): int {
    index / 0x100 % 0x1_0000 * 0x400 + index % 0x100 / 4
  }

  /** The data port: open only while the enable bit of the index is set. */
  function PortRead(config: Store, index: uint32): Lanes {
    if index >= 0x8000_0000 then config[IndexDword(index)] else ALL_ONES
  }

  function PortWrite(config: Store, index: uint32, l: Lanes): Store {
    if index >= 0x8000_0000 then config[IndexDword(index) := l] else config
  }

  predicate InEcam(p: Platform, a: int) {
    p.ecam <= a < p.ecam + SPACE
  }

  function PhysRead(p: Platform, s: DriverState, a: int): Lanes {
    if InEcam(p, a) then s.config[(a - p.ecam) / 4] else s.ram[a / 4]
  }

  function PhysWrite(p: Platform, s: DriverState, a: int, l: Lanes): DriverState {
    if InEcam(p, a) then s.(config := s.config[(a - p.ecam) / 4 := l]) else s.(ram := s.ram[a / 4 := l])
  }

  // ---------- what each accessor does ----------

  /** addr = (uint32_t) lfdd_cal_pcix_addr(ppci) */
  function Addr32(req: Request): uint32 {
    Address(req) % 0x1_0000_0000
  }

  /** The guard against mapping RAM, in 32-bit arithmetic: the last window of the address space wraps
      around and is refused too. */
  predicate Refused(p: Platform, start: uint32) {
    (start + MASSBUF) % 0x1_0000_0000 <= p.ramTop
  }

  predicate OutRange(addr: uint64, start: uint64) {
    addr < start || addr >= start + MASSBUF
  }

  /** The window after a request for addr that would map at `at`. */
  function Remapped(s: DriverState, addr: uint32, at: uint32): (s': DriverState)
    ensures s'.window.Mapped?
  {
    if s.window.Unmapped? || OutRange(addr, s.mapStart) then s.(window := Mapped(at), mapStart := at) else s
  }

  function AlignDown(addr: uint32): uint32 {
    addr - addr % MASSBUF
  }

  /** The state after a single MMIO access has settled the window. */
  function Settled(s: DriverState, addr: uint32): (s': DriverState)
    ensures s'.window.Mapped?
  {
    Remapped(s, addr, AlignDown(addr))
  }

  /** The physical address a single MMIO access really touches, in state s with a mapped window. */
  function Hit(s: DriverState, addr: uint32): int
    requires s.window.Mapped?
  {
    s.window.start + (addr % MASSBUF - addr % 4)
  }

  function ReadResult(p: Platform, w: Width, s: DriverState, req: Request): (DriverState, uint32) {
    var addr := Addr32(req);
    if req.phyBase == 0 then (s, Extracted(w, PortRead(s.config, addr - addr % 4), addr % 4))
    else if Refused(p, AlignDown(addr)) then (s, Limit(w) - 1)
    else
      var s' := Settled(s, addr);
      (s', Extracted(w, PhysRead(p, s', Hit(s', addr)), addr % 4))
  }

  function WriteResult(p: Platform, w: Width, s: DriverState, req: Request): DriverState {
    var addr := Addr32(req);
    if w == Dword && addr % 4 != 0 then s
    else if req.phyBase == 0 then
      var index := addr - addr % 4;
      s.(config := PortWrite(s.config, index, Merged(w, PortRead(s.config, index), addr % 4, Split(req.buf))))
    else if Refused(p, AlignDown(addr)) then s
    else
      var s' := Settled(s, addr);
      PhysWrite(p, s', Hit(s', addr), Merged(w, PhysRead(p, s', Hit(s', addr)), addr % 4, Split(req.buf)))
  }

  /** Dword i of a bulk read, in the state s the window has settled in. The window is made at the raw
      address of the request. */
  function BulkDword(p: Platform, s: DriverState, req: Request, i: nat): Lanes
    requires req.phyBase != 0 ==> s.window.Mapped?
  {
    if req.phyBase == 0 then PortRead(s.config, (Addr32(req) + 4 * i) % 0x1_0000_0000)
    else PhysRead(p, s, s.window.start + 4 * i)
  }

  predicate BulkRefused(p: Platform, req: Request) {
    req.phyBase != 0 && Refused(p, Addr32(req))
  }

  function BulkSettled(s: DriverState, req: Request): (s': DriverState)
    ensures req.phyBase != 0 ==> s'.window.Mapped?
  {
    if req.phyBase == 0 then s else Remapped(s, Addr32(req), Addr32(req))
  }

  function BulkByte(p: Platform, s: DriverState, req: Request, i: nat): uint8
    requires req.phyBase != 0 ==> s.window.Mapped?
  {
    Lane(BulkDword(p, s, req, i / 4), i % 4)
  }

  // ---------- the accessors ----------

  class Driver {
    const platform: Platform
    var config: Store
    var ram: Store
    var cf8: uint32
    var window: Window
    var mapStart: uint64

    constructor (platform: Platform, config: Store, ram: Store, cf8: uint32)
      ensures State() == DriverState(config, ram, cf8, Unmapped, 0) && this.platform == platform
    {
      this.platform := platform;
      this.config, this.ram, this.cf8 := config, ram, cf8;
      window, mapStart := Unmapped, 0;
    }

    ghost function State(): DriverState
      reads this
    {
      DriverState(config, ram, cf8, window, mapStart)
    }

    // inl and outl on the data port, readl and writel through the window

    method InData() returns (value: uint32)
      ensures value == Num(PortRead(config, cf8))
    {
      value := Num(if cf8 >= 0x8000_0000 then config[IndexDword(cf8)] else ALL_ONES);
    }

    method OutData(value: uint32)
      modifies this`config
      ensures config == PortWrite(old(config), cf8, Split(value))
    {
      config := PortWrite(config, cf8, Split(value));
    }

    method Readl(off: int) returns (value: uint32)
      requires window.Mapped?
      ensures value == Num(PhysRead(platform, State(), window.start + off))
    {
      var a := window.start + off;
      value := Num(if InEcam(platform, a) then config[(a - platform.ecam) / 4] else ram[a / 4]);
    }

    method Writel(value: uint32, off: int)
      requires window.Mapped?
      modifies this`config, this`ram
      ensures State() == PhysWrite(platform, old(State()), window.start + off, Split(value))
    {
      var a := window.start + off;
      if InEcam(platform, a) {
        config := config[(a - platform.ecam) / 4 := Split(value)];
      } else {
        ram := ram[a / 4 := Split(value)];
      }
    }

    /** The window code every MMIO branch starts with. */
    method MapWindow(addr: uint32, at: uint32)
      modifies this`window, this`mapStart
      ensures State() == Remapped(old(State()), addr, at)
    {
      if window.Unmapped? {
        window := Mapped(at);
        mapStart := at;
      } else if OutRange(addr, mapStart) {
        window := Unmapped;
        window := Mapped(at);
        mapStart := at;
      }
    }

    /** The dword that holds addr through the ports: index saved, set, data moved, index restored. */
    method PortReadDword(addr: uint32) returns (value: uint32)
      modifies this`cf8
      ensures State() == old(State())
      ensures value == Num(PortRead(config, addr - addr % 4))
    {
      hide And, Num;
      AlignMasks(addr);
      var origIdx := cf8;
      cf8 := And(addr, 0xffff_fffc);
      value := InData();
      cf8 := origIdx;
    }

    /** The dword that holds addr through the window, which is remapped first if addr lies outside. */
    method WindowReadDword(addr: uint32, aligned: uint32) returns (value: uint32)
      requires aligned == AlignDown(addr)
      modifies this`window, this`mapStart
      ensures State() == Settled(old(State()), addr)
      ensures value == Num(PhysRead(platform, State(), Hit(State(), addr)))
    {
      hide Num, PhysRead;
      MapWindow(addr, aligned);
      var off := addr - aligned;
      assert off % 4 == addr % 4 by { OffsetInWindow(addr); }
      value := Readl(off - off % 4);
    }

    /** addr and its 256-byte alignment, as every accessor starts. */
    method AddressOf(req: Request) returns (addr: uint32, aligned: uint32)
      ensures addr == Addr32(req) && aligned == AlignDown(addr)
    {
      hide And, Address;
      var addr64 := CalPcixAddr(req);
      addr := addr64 % 0x1_0000_0000;
      AlignMasks(addr);
      aligned := And(addr, 0xffff_ff00);
    }

    /** lfdd_pcix_read_byte, _read_word and _read_dword. */
    method Read(w: Width, req: Request) returns (value: uint32)
      modifies this
      ensures (State(), value) == ReadResult(platform, w, old(State()), req)
    {
      hide And, Num, Extract, Extracted, Addr32, PortRead, PhysRead, Refused, Settled, Hit, AlignDown;
      var addr, aligned := AddressOf(req);
      if req.phyBase == 0 {
        ghost var l := PortRead(config, addr - addr % 4);
        var dword := PortReadDword(addr);
        ExtractIsSelection(w, l, addr % 4);
        value := Extract(w, dword, addr % 4);
      } else if Refused(platform, aligned) {
        value := Limit(w) - 1;
      } else {
        var dword := WindowReadDword(addr, aligned);
        ghost var l := PhysRead(platform, State(), Hit(State(), addr));
        ExtractIsSelection(w, l, addr % 4);
        value := Extract(w, dword, addr % 4);
      }
    }

    /** lfdd_pcix_write_byte, _write_word and _write_dword; only the dword write refuses an address
        that is not aligned. */
    method Write(w: Width, req: Request)
      modifies this
      ensures State() == WriteResult(platform, w, old(State()), req)
    {
      hide Addr32, Merged, Split, PortRead, PortWrite, PhysRead, PhysWrite, Refused, Settled, Hit, AlignDown;
      var addr, aligned := AddressOf(req);
      if (w == Dword && addr % 4 != 0) || (req.phyBase != 0 && Refused(platform, aligned)) {
        return;
      }
      if req.phyBase == 0 {
        PortModify(w, addr, req.buf);
      } else {
        WindowModify(w, addr, aligned, req.buf);
      }
    }

    /** The MMIO half of a write: one read-modify-write through the settled window. */
    method WindowModify(w: Width, addr: uint32, aligned: uint32, buf: uint32)
      requires aligned == AlignDown(addr)
      modifies this
      ensures var s := Settled(old(State()), addr);
              State() == PhysWrite(platform, s, Hit(s, addr),
                                   Merged(w, PhysRead(platform, s, Hit(s, addr)), addr % 4, Split(buf)))
    {
      hide Num, Merge, Merged, Split, PhysRead, PhysWrite, Settled;
      var temp := WindowReadDword(addr, aligned);
      ghost var l := PhysRead(platform, State(), Hit(State(), addr));
      MergeIsReplacement(w, l, addr % 4, buf);
      SplitNum(Merged(w, l, addr % 4, Split(buf)));
      temp := Merge(w, temp, addr % 4, buf);
      var off := addr - aligned;
      assert off % 4 == addr % 4 by { OffsetInWindow(addr); }
      Writel(temp, off - off % 4);
    }

    /** The port half of a write: one read-modify-write between saving and restoring the index. */
    method PortModify(w: Width, addr: uint32, buf: uint32)
      modifies this`cf8, this`config
      ensures var s, index := old(State()), addr - addr % 4;
              State() == s.(config := PortWrite(s.config, index,
                                                Merged(w, PortRead(s.config, index), addr % 4, Split(buf))))
    {
      hide And, Num, Merge, Merged, Split;
      AlignMasks(addr);
      var origIdx := cf8;
      cf8 := And(addr, 0xffff_fffc);
      ghost var l := PortRead(config, cf8);
      var temp := InData();
      MergeIsReplacement(w, l, addr % 4, buf);
      SplitNum(Merged(w, l, addr % 4, Split(buf)));
      temp := Merge(w, temp, addr % 4, buf);
      OutData(temp);
      cf8 := origIdx;
    }

    /** The four bytes of a dword into mass_buf. */
    method StoreBytes(value: uint32, ghost l: Lanes, massBuf: array<uint8>, i: int)
      requires value == Num(l) && 0 <= i && i + 4 <= massBuf.Length
      modifies massBuf
      ensures forall j :: 0 <= j < massBuf.Length ==>
                massBuf[j] == if i <= j < i + 4 then Lane(l, j - i) else old(massBuf[j])
    {
      SplitNum(l);
      BytesOfValue(value);
      hide Num, Split;
      massBuf[i] := value % 0x100;
      massBuf[i + 1] := value / 0x100 % 0x100;
      massBuf[i + 2] := value / 0x1_0000 % 0x100;
      massBuf[i + 3] := value / 0x100_0000 % 0x100;
    }

    /** lfdd_pcix_read_256byte: 64 dwords into mass_buf, through the ports or through the window. */
    method Read256(req: Request, massBuf: array<uint8>)
      requires massBuf.Length == MASSBUF
      modifies this, massBuf
      ensures if BulkRefused(platform, req) then State() == old(State()) && massBuf[..] == old(massBuf[..])
              else State() == BulkSettled(old(State()), req)
                   && forall i :: 0 <= i < MASSBUF ==> massBuf[i] == BulkByte(platform, State(), req, i)
    {
      hide Num, Lane, Address, Split, PortRead, PhysRead;
      var addr64 := CalPcixAddr(req);
      var addr: uint32 := addr64 % 0x1_0000_0000;
      if req.phyBase != 0 && Refused(platform, addr) {
        return;
      }
      if req.phyBase != 0 {
        MapWindow(addr, addr);
      }
      ghost var s := State();
      var origIdx := cf8;
      var i := 0;
      while i < MASSBUF
        invariant 0 <= i <= MASSBUF && i % 4 == 0
        invariant req.phyBase != 0 ==> window.Mapped?
        invariant State() == s.(cf8 := cf8) && (req.phyBase != 0 ==> cf8 == origIdx)
        invariant forall j :: 0 <= j < i ==> massBuf[j] == BulkByte(platform, s, req, j)
      {
        var value: uint32;
        ghost var l := BulkDword(platform, s, req, i / 4);
        if req.phyBase == 0 {
          cf8 := (addr + i) % 0x1_0000_0000;
          value := InData();
        } else {
          value := Readl(i);
        }
        StoreBytes(value, l, massBuf, i);
        i := i + 4;
      }
      if req.phyBase == 0 {
        cf8 := origIdx;
      }
    }
  }

  lemma OffsetInWindow(addr: uint32)
    ensures (addr - AlignDown(addr)) % 4 == addr % 4
  {
    var q := addr / 256;
    Divided(addr, 4, 64 * q + addr % 256 / 4, addr % 256 % 4);
  }

  lemma BytesOfValue(v: uint32)
    ensures Split(v) == Lanes(v % 0x100, v / 0x100 % 0x100, v / 0x1_0000 % 0x100, v / 0x100_0000 % 0x100)
  {}
}
