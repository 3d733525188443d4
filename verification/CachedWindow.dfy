/**
 The one-entry window cache of lfdd/libpci_x86.c is invisible: over any serial run whose MMIO bulk reads
 are 256-aligned, whatever base the requests name, every answer and every store is the one a driver
 gives that maps the request's own address afresh each time.
 */
module CachedWindow {
  import opened Bits
  import opened Words
  import opened AddressCodec
  import opened PcixDriver
  import opened ConfigStore

  /** The same machine with nothing mapped. */
  function Fresh(s: DriverState): DriverState {
    s.(window := Unmapped, mapStart := 0)
  }

  predicate Kept(s: DriverState, s': DriverState) {
    Valid(s') && s'.config == s.config && s'.ram == s.ram && s'.cf8 == s.cf8
  }

  lemma SettledHits(p: Platform, s: DriverState, addr: uint32)
    requires Valid(s)
    ensures Kept(s, Settled(s, addr)) && Hit(Settled(s, addr), addr) == addr - addr % 4
    ensures PhysRead(p, Settled(s, addr), addr - addr % 4) == PhysRead(p, s, addr - addr % 4)
  {
    CacheAgreesIff(s, addr);
    SettledStaysValid(s, addr);
    SettledKeeps(s, addr);
  }

  lemma FreshIsValid(p: Platform, s: DriverState, a: int)
    ensures Valid(Fresh(s)) && PhysRead(p, Fresh(s), a) == PhysRead(p, s, a)
  {}

  lemma ReadIsFresh(p: Platform, w: Width, s: DriverState, req: Request)
    requires Valid(s)
    ensures Kept(s, ReadResult(p, w, s, req).0)
    ensures ReadResult(p, w, s, req).1 == ReadResult(p, w, Fresh(s), req).1
  {
    var addr := Addr32(req);
    FreshIsValid(p, s, addr - addr % 4);
    SettledHits(p, s, addr);
    SettledHits(p, Fresh(s), addr);
    hide Addr32, Extracted, PhysRead, Refused, Settled, Hit, AlignDown, Valid;
  }

  lemma PhysWriteFresh(p: Platform, s: DriverState, s': DriverState, a: int, l: Lanes)
    requires Fresh(s) == Fresh(s')
    ensures Fresh(PhysWrite(p, s, a, l)) == Fresh(PhysWrite(p, s', a, l))
    ensures PhysWrite(p, s, a, l).window == s.window && PhysWrite(p, s, a, l).mapStart == s.mapStart
  {}

  lemma WriteIsFresh(p: Platform, w: Width, s: DriverState, req: Request)
    requires Valid(s)
    ensures Valid(WriteResult(p, w, s, req))
    ensures Fresh(WriteResult(p, w, s, req)) == Fresh(WriteResult(p, w, Fresh(s), req))
  {
    var addr := Addr32(req);
    var a := addr - addr % 4;
    FreshIsValid(p, s, a);
    SettledHits(p, s, addr);
    SettledHits(p, Fresh(s), addr);
    var l := Merged(w, PhysRead(p, s, a), addr % 4, Split(req.buf));
    PhysWriteFresh(p, Settled(s, addr), Settled(Fresh(s), addr), a, l);
    ConfigChangeKeepsValid(Settled(s, addr), PhysWrite(p, Settled(s, addr), a, l));
    hide Addr32, Merged, Split, PhysRead, PhysWrite, PortRead, PortWrite;
    hide Refused, Settled, Hit, AlignDown, Coherent, WindowAligned;
    if req.phyBase == 0 {
      ConfigChangeKeepsValid(s, WriteResult(p, w, s, req));
    }
  }

  predicate BulkAtWindow(op: Op) {
    op.Bulk? && op.req.phyBase != 0 ==> Addr32(op.req) % MASSBUF == 0
  }

  /** Good requests are such, whichever base they take for the decoded one. */
  lemma GoodOpsKeepWindow(p: Platform, op: Op)
    requires GoodPlatform(p) && GoodOp(p, op)
    ensures BulkAtWindow(op)
  {
    hide Addr32, Refused, InRange;
    if op.Bulk? && op.req.phyBase != 0 {
      EcamBulkAddress(p, op.req);
    }
  }

  lemma BulkIsFresh(p: Platform, s: DriverState, req: Request)
    requires Valid(s) && BulkAtWindow(Bulk(req))
    ensures var t, f := BulkSettled(s, req), BulkSettled(Fresh(s), req);
            Kept(s, t) && Fresh(t) == Fresh(f) && (req.phyBase != 0 ==> t.window == f.window == Mapped(Addr32(req)))
  {
    hide Addr32;
    BulkStaysValidIff(s, req);
    var addr := Addr32(req);
    if req.phyBase != 0 && s.window.Mapped? && !OutRange(addr, s.mapStart) {
      Divided(addr, MASSBUF, s.window.start / MASSBUF, addr - s.window.start);
    }
  }

  lemma BulkDwordSame(p: Platform, s: DriverState, t: DriverState, req: Request, i: nat)
    requires Fresh(s) == Fresh(t) && (req.phyBase != 0 ==> s.window.Mapped? && s.window == t.window)
    ensures BulkDword(p, s, req, i) == BulkDword(p, t, req, i)
  {
    hide Addr32, PortRead;
  }

  lemma BulkBlockSame(p: Platform, s: DriverState, t: DriverState, req: Request)
    requires Fresh(s) == Fresh(t) && (req.phyBase != 0 ==> s.window.Mapped? && s.window == t.window)
    ensures BulkBlock(p, s, req) == BulkBlock(p, t, req)
  {
    hide BulkDword, Lane, Fresh;
    forall i | 0 <= i < MASSBUF
      ensures BulkBlock(p, s, req)[i] == BulkBlock(p, t, req)[i]
    {
      BulkDwordSame(p, s, t, req, i / 4);
    }
  }

  lemma ExecIsFresh(p: Platform, s: DriverState, op: Op)
    requires Valid(s) && BulkAtWindow(op)
    ensures var (s', a) := Exec(p, s, op);
            var (f, b) := Exec(p, Fresh(s), op);
            Valid(s') && Fresh(s') == Fresh(f) && a == b
  {
    hide ReadResult, WriteResult, BulkSettled, BulkRefused, BulkBlock, Valid, BulkAtWindow;
    match op
    case Read(w, req) =>
      ReadIsFresh(p, w, s, req);
      FreshIsValid(p, s, 0);
      ReadIsFresh(p, w, Fresh(s), req);
    case Write(w, req) => WriteIsFresh(p, w, s, req);
    case Bulk(req) =>
      BulkIsFresh(p, s, req);
      BulkBlockSame(p, BulkSettled(s, req), BulkSettled(Fresh(s), req), req);
  }

  /** The driver without a cache: every request maps its own address. */
  function RunUncached(p: Platform, s: DriverState, ops: seq<Op>): (DriverState, seq<Answer>)
    decreases |ops|
  {
    if ops == [] then (s, [])
    else
      var (s', a) := Exec(p, Fresh(s), ops[0]);
      var (s'', as') := RunUncached(p, s', ops[1..]);
      (s'', [a] + as')
  }

  /** Requests over any base, served by ports or MMIO, refused or not: the cached window never shows. */
  lemma {:induction false} CacheIsInvisible(p: Platform, s: DriverState, t: DriverState, ops: seq<Op>)
    requires Valid(s) && Fresh(s) == Fresh(t)
    requires forall op :: op in ops ==> BulkAtWindow(op)
    ensures var (s', answers) := Run(p, s, ops);
            var (t', answers') := RunUncached(p, t, ops);
            Valid(s') && Fresh(s') == Fresh(t') && answers == answers'
    decreases |ops|
  {
    hide Exec, Valid, BulkAtWindow, Fresh;
    if ops != [] {
      ExecIsFresh(p, s, ops[0]);
      CacheIsInvisible(p, Exec(p, s, ops[0]).0, Exec(p, Fresh(t), ops[0]).0, ops[1..]);
    }
  }
}
