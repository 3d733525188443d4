/**
 How a request names a configuration register: the CF8 index of the port mechanism (PCI Local Bus
 Specification 3.0, section 3.2.2.3.2) and the ECAM address (PCI Express Base Specification 3.0,
 section 7.2.2).
 */
module AddressCodec {
  import opened Bits

  /** struct lfdd_pcix_t without mass_buf, which the bulk read takes as a separate array. */
  datatype Request = Request(bus: uint8, dev: uint8, fun: uint8, reg: uint16, phyBase: uint64, buf: uint32)

  /** A configuration byte is named by its offset in the 256 MiB configuration space. */
  const SPACE: int := 0x1000_0000

  function Key(bus: int, dev: int, fun: int, reg: int): int {
    bus * 0x10_0000 + dev * 0x8000 + fun * 0x1000 + reg
  }

  function KeyOf(req: Request): int {
    Key(req.bus, req.dev, req.fun, req.reg)
  }

  /** The requests whose fields are in the ranges the specifications give them. */
  predicate InRange(req: Request) {
    req.dev < 32 && req.fun < 8 && req.reg < (if req.phyBase == 0 then 0x100 else 0x1000)
  }

  function FunctionBits(req: Request): int {
    req.bus * 0x100 + req.dev % 32 * 8 + req.fun % 8
  }

  /** What lfdd_cal_pcix_addr computes, for every request. */
  function Address(req: Request): uint64 {
    if req.phyBase == 0 then
      IndexFits(req);
      Or(0x8000_0000 + FunctionBits(req) * 0x100, req.reg)
    else
      (FunctionBits(req) * 0x1000 + req.reg % 0x1000 + req.phyBase) % 0x1_0000_0000_0000_0000
  }

  lemma IndexFits(req: Request)
    ensures Or(0x8000_0000 + FunctionBits(req) * 0x100, req.reg) < 0x1_0000_0000
    ensures req.reg < 0x100 ==>
              Or(0x8000_0000 + FunctionBits(req) * 0x100, req.reg) == 0x8000_0000 + FunctionBits(req) * 0x100 + req.reg
  {
    hide Or, Num, FunctionBits;
    BitsBound(req);
    IndexBytes(FunctionBits(req), req.reg);
  }

  lemma BitsBound(req: Request)
    ensures 0 <= FunctionBits(req) < 0x1_0000
  {}

  lemma IndexBytes(bits: uint16, reg: uint16)
    ensures Or(0x8000_0000 + bits * 0x100, reg) < 0x1_0000_0000
    ensures reg < 0x100 ==> Or(0x8000_0000 + bits * 0x100, reg) == 0x8000_0000 + bits * 0x100 + reg
  {
    hide Or;
    var f0, f1, r0, r1 := bits % 0x100, bits / 0x100, reg % 0x100, reg / 0x100;
    assert 0x8000_0000 + bits * 0x100 == Num(Lanes(0, f0, f1, 0x80));
    assert reg == Num(Lanes(r0, r1, 0, 0));
    Bytewise(Lanes(0, f0, f1, 0x80), Lanes(r0, r1, 0, 0));
    OrZero(r0);
    OrZero(f0);
    OrZero(f1);
    OrZero(0x80);
    OrByte(f0, r1);
  }

  lemma OrByte(a: uint8, b: uint8)
    ensures Or(a, b) < 0x100
  {
    hide Or;
    EightBits();
    ByteResult(8, a, b);
  }

  /** lfdd_cal_pcix_addr: the address is built by or-ing each masked field into shifted bits. */
  method CalPcixAddr(req: Request) returns (addr: nat)
    ensures addr == Address(req)
  {
    hide And, Or;
    FieldMasks(req);
    addr := 0;
    OrZero(And(req.bus, 0xff));
    addr := Or(addr, And(req.bus, 0xff));
    addr := addr * 0x20;
    OrField(req.bus, req.dev % 32);
    addr := Or(addr, And(req.dev, 0x1f));
    addr := addr * 8;
    OrField(req.bus * 0x20 + req.dev % 32, req.fun % 8);
    addr := Or(addr, And(req.fun, 0x07));
    assert addr == FunctionBits(req);
    if req.phyBase == 0 {
      addr := addr * 0x100;
      OrEnable(FunctionBits(req));
      addr := Or(addr, 0x8000_0000);
      addr := Or(addr, req.reg);
    } else {
      addr := addr * 0x1000;
      OrRegister(FunctionBits(req), req.reg % 0x1000);
      addr := Or(addr, And(req.reg, 0x0fff));
      addr := (addr + req.phyBase) % 0x1_0000_0000_0000_0000;
    }
  }

  lemma OrEnable(bits: nat)
    requires bits < 0x1_0000
    ensures Or(bits * 0x100, 0x8000_0000) == 0x8000_0000 + bits * 0x100
  {
    hide Or;
    var f0, f1 := bits % 0x100, bits / 0x100;
    assert bits * 0x100 == Num(Lanes(0, f0, f1, 0));
    OrLanes(Lanes(0, f0, f1, 0), Lanes(0, 0, 0, 0x80));
  }

  lemma FieldMasks(req: Request)
    ensures And(req.bus, 0xff) == req.bus
    ensures And(req.dev, 0x1f) == req.dev % 32 && And(req.fun, 0x07) == req.fun % 8
    ensures And(req.reg, 0x0fff) == req.reg % 0x1000
  {
    hide And;
    MaskByte(req.bus);
    AndLowBits(req.dev);
    AndLowBits(req.fun);
    AndLowBits(req.reg);
  }

  // ---------- both encodings are invertible ----------

  /** The bus, device, function and register fields of a configuration offset. */
  function Fields(key: int): (int, int, int, int) {
    (key / 0x10_0000 % 0x100, key / 0x8000 % 32, key / 0x1000 % 8, key % 0x1000)
  }

  /** The same fields of a CF8 index. */
  function IndexFields(index: int): (int, int, int, int) {
    (index / 0x1_0000 % 0x100, index / 0x800 % 32, index / 0x100 % 8, index % 0x100)
  }

  lemma KeyInverse(bus: int, dev: int, fun: int, reg: int)
    requires 0 <= bus < 0x100 && 0 <= dev < 32 && 0 <= fun < 8 && 0 <= reg < 0x1000
    ensures Fields(Key(bus, dev, fun, reg)) == (bus, dev, fun, reg)
    ensures 0 <= Key(bus, dev, fun, reg) < SPACE
  {
    var key := Key(bus, dev, fun, reg);
    Divided(key, 0x1000, bus * 0x100 + dev * 8 + fun, reg);
    Divided(key, 0x8000, bus * 32 + dev, fun * 0x1000 + reg);
    Divided(key, 0x10_0000, bus, dev * 0x8000 + fun * 0x1000 + reg);
    Divided(bus * 0x100 + dev * 8 + fun, 8, bus * 32 + dev, fun);
    Divided(bus * 32 + dev, 32, bus, dev);
  }

  /** The port encoding: enable bit set, nothing lost, and the fields come back. */
  lemma PortAddressInverse(req: Request)
    requires InRange(req) && req.phyBase == 0
    ensures Address(req) < 0x1_0000_0000 && Address(req) / 0x8000_0000 == 1
    ensures IndexFields(Address(req)) == (req.bus, req.dev, req.fun, req.reg)
  {
    hide Or, IndexFields;
    IndexFits(req);
    IndexInverse(req.bus, req.dev, req.fun, req.reg);
  }

  lemma IndexInverse(bus: int, dev: int, fun: int, reg: int)
    requires 0 <= bus < 0x100 && 0 <= dev < 32 && 0 <= fun < 8 && 0 <= reg < 0x100
    ensures var index := 0x8000_0000 + bus * 0x1_0000 + dev * 0x800 + fun * 0x100 + reg;
            IndexFields(index) == (bus, dev, fun, reg) && index / 0x8000_0000 == 1
  {
    var index := 0x8000_0000 + bus * 0x1_0000 + dev * 0x800 + fun * 0x100 + reg;
    var f := 0x80_0000 + bus * 0x100 + dev * 8 + fun;
    Divided(index, 0x100, f, reg);
    Divided(f, 8, 0x10_0000 + bus * 32 + dev, fun);
    Divided(index, 0x800, 0x10_0000 + bus * 32 + dev, fun * 0x100 + reg);
    Divided(0x10_0000 + bus * 32 + dev, 32, 0x8000 + bus, dev);
    Divided(index, 0x1_0000, 0x8000 + bus, dev * 0x800 + fun * 0x100 + reg);
    Divided(0x8000 + bus, 0x100, 0x80, bus);
    Divided(index, 0x8000_0000, 1, bus * 0x1_0000 + dev * 0x800 + fun * 0x100 + reg);
  }

  lemma EcamAddress(req: Request)
    requires InRange(req) && req.phyBase != 0 && req.phyBase <= 0x1_0000_0000
    ensures Address(req) == req.phyBase + KeyOf(req)
  {
    var key := KeyOf(req);
    KeyInverse(req.bus, req.dev, req.fun, req.reg);
    assert FunctionBits(req) * 0x1000 + req.reg % 0x1000 == key;
    assert 0 <= key + req.phyBase < 0x1_0000_0000_0000_0000;
  }

  /** The ECAM encoding under a base that leaves room for the whole space. */
  lemma EcamAddressInverse(req: Request)
    requires InRange(req) && 0 < req.phyBase <= 0x1_0000_0000 - SPACE
    ensures Address(req) < 0x1_0000_0000
    ensures Fields(Address(req) - req.phyBase) == (req.bus, req.dev, req.fun, req.reg)
  {
    hide Address, Fields, Key;
    EcamAddress(req);
    KeyInverse(req.bus, req.dev, req.fun, req.reg);
  }

  /** The cast of an ECAM address to 32 bits loses nothing, for every register, exactly when the base
      leaves room for the whole space below 4 GiB. */
  lemma EcamFitsIff(base: uint64)
    requires 0 < base < 0x1_0000_0000
    ensures (forall req: Request :: InRange(req) && req.phyBase == base ==> Address(req) < 0x1_0000_0000)
            <==> base <= 0x1_0000_0000 - SPACE
  {
    if base <= 0x1_0000_0000 - SPACE {
      forall req: Request | InRange(req) && req.phyBase == base
        ensures Address(req) < 0x1_0000_0000
      {
        EcamAddressInverse(req);
      }
    } else {
      var last := Request(0xff, 31, 7, 0xfff, base, 0);
      EcamAddress(last);
      assert InRange(last);
    }
  }

  /** Distinct functions occupy disjoint 4 KiB ranges of configuration offsets. */
  lemma FunctionsDisjoint(a: Request, b: Request, i: int, j: int)
    requires InRange(a) && InRange(b)
    requires (a.bus, a.dev, a.fun) != (b.bus, b.dev, b.fun)
    requires 0 <= i < 0x1000 && 0 <= j < 0x1000
    ensures Key(a.bus, a.dev, a.fun, i) != Key(b.bus, b.dev, b.fun, j)
  {
    KeyInverse(a.bus, a.dev, a.fun, i);
    KeyInverse(b.bus, b.dev, b.fun, j);
  }

  /** The 64-bit sum may wrap around. */
  lemma EcamSum(req: Request)
    requires InRange(req) && req.phyBase != 0
    ensures Address(req) == (KeyOf(req) + req.phyBase) % 0x1_0000_0000_0000_0000
    ensures KeyOf(req) == Key(req.bus, req.dev, req.fun, req.reg)
  {
    assert FunctionBits(req) * 0x1000 + req.reg % 0x1000 == KeyOf(req);
  }

  lemma SameSum(x: int, y: int, base: uint64)
    requires 0 <= x < SPACE && 0 <= y < SPACE
    requires (x + base) % 0x1_0000_0000_0000_0000 == (y + base) % 0x1_0000_0000_0000_0000
    ensures x == y
  {}

  /** Two in-range requests of one mechanism, under any base, have the same address only for the same register. */
  lemma AddressInjective(a: Request, b: Request)
    requires InRange(a) && InRange(b) && a.phyBase == b.phyBase
    requires Address(a) == Address(b)
    ensures (a.bus, a.dev, a.fun, a.reg) == (b.bus, b.dev, b.fun, b.reg)
  {
    hide Address, Fields, IndexFields, Key, KeyOf;
    if a.phyBase == 0 {
      PortAddressInverse(a);
      PortAddressInverse(b);
    } else {
      EcamSum(a);
      EcamSum(b);
      KeyInverse(a.bus, a.dev, a.fun, a.reg);
      KeyInverse(b.bus, b.dev, b.fun, b.reg);
      SameSum(KeyOf(a), KeyOf(b), a.phyBase);
    }
  }
}
