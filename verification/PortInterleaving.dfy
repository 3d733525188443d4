/**
 Any number of threads in the port branches of the accessors, interleaved instruction by
 instruction. Computing the address precedes the lock; everything between spin_lock_irqsave and
 spin_unlock_irqrestore is one step per port access.
 */
module PortInterleaving {
  import opened Bits
  import opened Words
  import opened AddressCodec
  import opened PcixDriver
  import opened ConfigStore

  datatype Pc = Waiting | Entered | IndexSaved | IndexSet | Fetched | Transferred | IndexRestored

  /** A thread inside an accessor: its operation, where it is, and its local variables. */
  datatype Thread = Thread(op: Op, pc: Pc, origIdx: uint32, temp: Lanes, got: seq<Lanes>, answer: Answer)

  datatype Lock = Free | HeldBy(tid: nat)

  datatype Entry = Entry(tid: nat, op: Op, answer: Answer)

  /** The shared registers, the threads, the operations in the order of their atomic points, and the
      operations in the order in which they returned to their callers. */
  datatype System = System(config: Store, cf8: uint32, lock: Lock, threads: map<nat, Thread>,
                           log: seq<Entry>, returned: seq<Entry>)

  datatype Event = Call(tid: nat, op: Op) | Step(tid: nat)

  /** The accesses that reach the lock in the port branch: MMIO requests do not, and a dword write to
      an unaligned address has returned before. */
  predicate TakesPortPath(op: Op) {
    op.req.phyBase == 0 && (op.Write? && op.w == Dword ==> Addr32(op.req) % 4 == 0)
  }

  /** The index written before data access number i of an operation. */
  function IndexFor(op: Op, i: nat): uint32 {
    if op.Bulk? then (Addr32(op.req) + 4 * i) % 0x1_0000_0000 else Addr32(op.req) - Addr32(op.req) % 4
  }

  function Init(config: Store, cf8: uint32): System {
    System(config, cf8, Free, map[], [], [])
  }

  function Set(g: System, tid: nat, t: Thread): System {
    g.(threads := g.threads[tid := t])
  }

  /** The step that makes the operation take effect: its answer is fixed and it enters the log. */
  function Commit(g: System, tid: nat, t: Thread, answer: Answer): System {
    Set(g.(log := g.log + [Entry(tid, t.op, answer)]), tid, t.(pc := Transferred, answer := answer))
  }

  function BytesGot(got: seq<Lanes>): (b: seq<uint8>)
    requires |got| == 64
    ensures |b| == MASSBUF && forall i :: 0 <= i < MASSBUF ==> b[i] == Lane(got[i / 4], i % 4)
  {
    seq(MASSBUF, i requires 0 <= i < MASSBUF => Lane(got[i / 4], i % 4))
  }

  /** The access to the data port that follows setting the index. */
  function DataStep(g: System, tid: nat, t: Thread): System {
    var dword := PortRead(g.config, g.cf8);
    match t.op
    case Read(w, req) =>
      Commit(g, tid, t, Value(Extracted(w, dword, Addr32(req) % 4)))
    case Write(Dword, req) =>
      Commit(g.(config := PortWrite(g.config, g.cf8, Split(req.buf))), tid, t, Done)
    case Write(w, req) =>
      Set(g, tid, t.(pc := Fetched, temp := dword))
    case Bulk(req) =>
      var t' := t.(got := t.got + [dword]);
      if |t'.got| == 64 then Commit(g, tid, t', Block(BytesGot(t'.got)))
      else Set(g, tid, t'.(pc := IndexSaved))
  }

  /** One step of one thread; a step that is not enabled changes nothing. */
  function Advance(g: System, tid: nat): System {
    if tid !in g.threads then g
    else
      var t := g.threads[tid];
      match t.pc
      case Waiting => if g.lock.Free? then Set(g.(lock := HeldBy(tid)), tid, t.(pc := Entered)) else g
      case Entered => Set(g, tid, t.(pc := IndexSaved, origIdx := g.cf8))
      case IndexSaved => Set(g.(cf8 := IndexFor(t.op, |t.got|)), tid, t.(pc := IndexSet))
      case IndexSet => DataStep(g, tid, t)
      case Fetched =>
        if t.op.Write? then
          var dword := Merged(t.op.w, t.temp, Addr32(t.op.req) % 4, Split(t.op.req.buf));
          Commit(g.(config := PortWrite(g.config, g.cf8, dword)), tid, t, Done)
        else g
      case Transferred => Set(g.(cf8 := t.origIdx), tid, t.(pc := IndexRestored))
      case IndexRestored =>
        g.(lock := Free, threads := g.threads - {tid}, returned := g.returned + [Entry(tid, t.op, t.answer)])
  }

  function Next(g: System, e: Event): System {
    match e
    case Call(tid, op) =>
      if tid !in g.threads && TakesPortPath(op)
      then Set(g, tid, Thread(op, Waiting, 0, Lanes(0, 0, 0, 0), [], Done))
      else g
    case Step(tid) => Advance(g, tid)
  }

  function Trace(g: System, es: seq<Event>): System {
    if es == [] then g else Next(Trace(g, es[..|es| - 1]), es[|es| - 1])
  }

  // ---------- the invariant ----------

  function Ops(log: seq<Entry>): (ops: seq<Op>)
    ensures |ops| == |log| && forall i :: 0 <= i < |log| ==> ops[i] == log[i].op
  {
    seq(|log|, i requires 0 <= i < |log| => log[i].op)
  }

  function Answers(log: seq<Entry>): (answers: seq<Answer>)
    ensures |answers| == |log| && forall i :: 0 <= i < |log| ==> answers[i] == log[i].answer
  {
    seq(|log|, i requires 0 <= i < |log| => log[i].answer)
  }

  /** The log, executed serially by the accessors from state s, gives the configuration space of g and
      the answers in the log. */
  predicate Linearized(p: Platform, s: DriverState, g: System) {
    Run(p, s, Ops(g.log)) == (s.(config := g.config), Answers(g.log))
  }

  predicate InCritical(t: Thread) {
    t.pc != Waiting
  }

  /** Whoever is past the lock holds it. */
  predicate Exclusive(g: System) {
    && (g.lock.HeldBy? ==> g.lock.tid in g.threads && InCritical(g.threads[g.lock.tid]))
    && (forall tid :: tid in g.threads ==> (InCritical(g.threads[tid]) <==> g.lock == HeldBy(tid)))
  }

  /** What the holder of the lock knows, given the index cf8 held before it came. */
  predicate HolderKnows(g: System, t: Thread, cf8: uint32) {
    && TakesPortPath(t.op)
    && (t.pc.Entered? || t.pc.IndexRestored? ==> g.cf8 == cf8)
    && (t.pc.IndexSaved? || t.pc.IndexSet? || t.pc.Fetched? || t.pc.Transferred? ==> t.origIdx == cf8)
    && (t.pc.IndexSet? || t.pc.Fetched? ==> g.cf8 == IndexFor(t.op, |t.got|))
    && (t.pc == Fetched ==> t.op.Write? && t.op.w != Dword && t.got == [] && t.temp == PortRead(g.config, g.cf8))
    && (t.pc.Entered? || t.pc.IndexSaved? || t.pc.IndexSet? ==> |t.got| < 64 && GotSoFar(g.config, t.op, t.got))
  }

  /** Everything a bulk read has collected is still what the registers hold. */
  predicate GotSoFar(config: Store, op: Op, got: seq<Lanes>) {
    && (got != [] ==> op.Bulk?)
    && (forall j :: 0 <= j < |got| ==> got[j] == PortRead(config, IndexFor(op, j)))
  }

  predicate WaitingKnows(t: Thread) {
    TakesPortPath(t.op) && (t.pc == Waiting ==> t.got == [])
  }

  /** Returned operations are the log, except for a holder that has committed and not yet left. */
  predicate ReturnsInOrder(g: System) {
    match g.lock
    case Free => g.returned == g.log
    case HeldBy(tid) =>
      if tid in g.threads && (g.threads[tid].pc.Transferred? || g.threads[tid].pc.IndexRestored?) then
        g.log == g.returned + [Entry(tid, g.threads[tid].op, g.threads[tid].answer)]
      else g.returned == g.log
  }

  predicate Inv(p: Platform, s: DriverState, g: System) {
    && Exclusive(g)
    && (g.lock.Free? ==> g.cf8 == s.cf8)
    && (g.lock.HeldBy? ==> HolderKnows(g, g.threads[g.lock.tid], s.cf8))
    && (forall tid :: tid in g.threads ==> WaitingKnows(g.threads[tid]))
    && ReturnsInOrder(g)
    && Linearized(p, s, g)
  }

  // ---------- commits are serial steps ----------

  lemma {:induction false} RunSnoc(p: Platform, s: DriverState, ops: seq<Op>, op: Op)
    ensures var (s1, as1) := Run(p, s, ops);
            var (s2, a) := Exec(p, s1, op);
            Run(p, s, ops + [op]) == (s2, as1 + [a])
    decreases |ops|
  {
    hide Exec;
    if ops == [] {
      assert ops + [op] == [op] && [op][1..] == [];
      var (s2, a) := Exec(p, s, op);
      assert Run(p, s2, [op][1..]) == (s2, []);
      assert [a] + [] == [] + [a];
    } else {
      var (s', a') := Exec(p, s, ops[0]);
      RunSnoc(p, s', ops[1..], op);
      assert (ops + [op])[1..] == ops[1..] + [op] && (ops + [op])[0] == ops[0];
      var (s1, rest) := Run(p, s', ops[1..]);
      var (_, a) := Exec(p, s1, op);
      assert ([a'] + rest) + [a] == [a'] + (rest + [a]);
    }
  }

  /** A commit whose effect and answer are those of the serial accessor keeps the log linearized. */
  lemma CommitLinearizes(p: Platform, s: DriverState, g: System, g': System, tid: nat, op: Op, answer: Answer)
    requires Linearized(p, s, g) && g'.log == g.log + [Entry(tid, op, answer)]
    requires Exec(p, s.(config := g.config), op) == (s.(config := g'.config), answer)
    ensures Linearized(p, s, g')
  {
    hide Exec, Run;
    RunSnoc(p, s, Ops(g.log), op);
    assert Ops(g'.log) == Ops(g.log) + [op];
    assert Answers(g'.log) == Answers(g.log) + [answer];
  }

  lemma ExecRead(p: Platform, s: DriverState, w: Width, req: Request)
    requires req.phyBase == 0
    ensures Exec(p, s, Op.Read(w, req))
            == (s, Value(Extracted(w, PortRead(s.config, IndexFor(Op.Read(w, req), 0)), Addr32(req) % 4)))
  {
    hide PortRead, Addr32, Extracted;
  }

  lemma ExecWrite(p: Platform, s: DriverState, w: Width, req: Request)
    requires TakesPortPath(Op.Write(w, req))
    ensures var index := IndexFor(Op.Write(w, req), 0);
            var dword := Merged(w, PortRead(s.config, index), Addr32(req) % 4, Split(req.buf));
            Exec(p, s, Op.Write(w, req)) == (s.(config := PortWrite(s.config, index, dword)), Done)
  {
    hide PortRead, PortWrite, Addr32, Merged, Split;
  }

  lemma ExecBulk(p: Platform, s: DriverState, req: Request, got: seq<Lanes>)
    requires req.phyBase == 0 && |got| == 64
    requires forall j :: 0 <= j < 64 ==> got[j] == PortRead(s.config, IndexFor(Bulk(req), j))
    ensures Exec(p, s, Bulk(req)) == (s, Block(BytesGot(got)))
  {
    hide PortRead, Addr32, Lane;
    assert BulkBlock(p, s, req) == BytesGot(got);
  }

  lemma MergedDword(l: Lanes, n: int, c: Lanes)
    ensures Merged(Dword, l, n, c) == c
  {}

  // ---------- every step keeps the invariant ----------

  lemma CallKeepsInv(p: Platform, s: DriverState, g: System, tid: nat, op: Op)
    requires Inv(p, s, g)
    ensures Inv(p, s, Next(g, Call(tid, op)))
  {
    hide Run, TakesPortPath, PortRead, IndexFor, GotSoFar;
  }

  /** A step of the holder inside the critical section. */
  lemma HolderStep(p: Platform, s: DriverState, g: System, g': System, tid: nat)
    requires Inv(p, s, g) && g.lock == HeldBy(tid) && g'.lock == g.lock
    requires tid in g'.threads && g'.threads == g.threads[tid := g'.threads[tid]]
    requires g'.threads[tid].op == g.threads[tid].op && InCritical(g'.threads[tid])
    requires HolderKnows(g', g'.threads[tid], s.cf8) && ReturnsInOrder(g') && Linearized(p, s, g')
    ensures Inv(p, s, g')
  {
    hide Run, TakesPortPath, HolderKnows, ReturnsInOrder, Linearized;
  }

  lemma HolderIsCritical(p: Platform, s: DriverState, g: System, tid: nat)
    requires Inv(p, s, g) && tid in g.threads && InCritical(g.threads[tid])
    ensures g.lock == HeldBy(tid) && HolderKnows(g, g.threads[tid], s.cf8)
  {
    hide Run, TakesPortPath, HolderKnows, ReturnsInOrder, Linearized;
  }

  lemma CommitKeepsInv(p: Platform, s: DriverState, g: System, config: Store, tid: nat, t: Thread, answer: Answer)
    requires Inv(p, s, g) && tid in g.threads && InCritical(g.threads[tid])
    requires g.threads[tid].pc.IndexSet? || g.threads[tid].pc.Fetched?
    requires t.op == g.threads[tid].op && t.origIdx == g.threads[tid].origIdx
    requires Exec(p, s.(config := g.config), t.op) == (s.(config := config), answer)
    ensures Inv(p, s, Commit(g.(config := config), tid, t, answer))
  {
    hide Run, Exec, TakesPortPath, PortRead, IndexFor, GotSoFar, Linearized;
    HolderIsCritical(p, s, g, tid);
    var g' := Commit(g.(config := config), tid, t, answer);
    CommitLinearizes(p, s, g, g', tid, t.op, answer);
    HolderStep(p, s, g, g', tid);
  }

  lemma DataStepKeepsInv(p: Platform, s: DriverState, g: System, tid: nat)
    requires Inv(p, s, g) && tid in g.threads && g.threads[tid].pc.IndexSet?
    ensures Inv(p, s, DataStep(g, tid, g.threads[tid]))
  {
    HolderIsCritical(p, s, g, tid);
    var t, s1 := g.threads[tid], s.(config := g.config);
    var dword := PortRead(g.config, g.cf8);
    hide Run, Exec, PortRead, PortWrite, IndexFor, Extracted, Merged, Addr32, Split, BytesGot, Inv, Commit;
    assert g.(config := g.config) == g;
    match t.op
    case Read(w, req) =>
      ExecRead(p, s1, w, req);
      CommitKeepsInv(p, s, g, g.config, tid, t, Value(Extracted(w, dword, Addr32(req) % 4)));
    case Write(Dword, req) =>
      ExecWrite(p, s1, Dword, req);
      MergedDword(dword, Addr32(req) % 4, Split(req.buf));
      CommitKeepsInv(p, s, g, PortWrite(g.config, g.cf8, Split(req.buf)), tid, t, Done);
    case Write(w, req) =>
      FetchKeepsInv(p, s, g, tid);
    case Bulk(req) =>
      var got := t.got + [dword];
      if |got| == 64 {
        ExecBulk(p, s1, req, got);
        CommitKeepsInv(p, s, g, g.config, tid, t.(got := got), Block(BytesGot(got)));
      } else {
        CollectKeepsInv(p, s, g, tid);
      }
  }

  lemma FetchKeepsInv(p: Platform, s: DriverState, g: System, tid: nat)
    requires Inv(p, s, g) && tid in g.threads && g.threads[tid].pc.IndexSet?
    requires g.threads[tid].op.Write? && g.threads[tid].op.w != Dword
    ensures Inv(p, s, Set(g, tid, g.threads[tid].(pc := Fetched, temp := PortRead(g.config, g.cf8))))
  {
    hide Run, TakesPortPath, PortRead, IndexFor, Linearized;
    HolderIsCritical(p, s, g, tid);
    var g' := Set(g, tid, g.threads[tid].(pc := Fetched, temp := PortRead(g.config, g.cf8)));
    SameLog(p, s, g, g');
    HolderStep(p, s, g, g', tid);
  }

  lemma CollectKeepsInv(p: Platform, s: DriverState, g: System, tid: nat)
    requires Inv(p, s, g) && tid in g.threads && g.threads[tid].pc.IndexSet?
    requires g.threads[tid].op.Bulk? && |g.threads[tid].got| < 63
    ensures var t := g.threads[tid];
            Inv(p, s, Set(g, tid, t.(pc := IndexSaved, got := t.got + [PortRead(g.config, g.cf8)])))
  {
    hide Run, TakesPortPath, PortRead, IndexFor, Linearized;
    HolderIsCritical(p, s, g, tid);
    var t := g.threads[tid];
    var g' := Set(g, tid, t.(pc := IndexSaved, got := t.got + [PortRead(g.config, g.cf8)]));
    SameLog(p, s, g, g');
    HolderStep(p, s, g, g', tid);
  }

  lemma SameLog(p: Platform, s: DriverState, g: System, g': System)
    requires Linearized(p, s, g) && g'.log == g.log && g'.config == g.config
    ensures Linearized(p, s, g')
  {}

  lemma FetchedKeepsInv(p: Platform, s: DriverState, g: System, tid: nat)
    requires Inv(p, s, g) && tid in g.threads && g.threads[tid].pc.Fetched?
    ensures Inv(p, s, Advance(g, tid))
  {
    HolderIsCritical(p, s, g, tid);
    var t := g.threads[tid];
    hide Run, Exec, PortRead, PortWrite, IndexFor, Merged, Addr32, Split, Inv, Commit;
    ExecWrite(p, s.(config := g.config), t.op.w, t.op.req);
    var dword := Merged(t.op.w, t.temp, Addr32(t.op.req) % 4, Split(t.op.req.buf));
    CommitKeepsInv(p, s, g, PortWrite(g.config, g.cf8, dword), tid, t, Done);
  }

  /** Saving, setting and restoring the index. */
  lemma IndexStepKeepsInv(p: Platform, s: DriverState, g: System, tid: nat)
    requires Inv(p, s, g) && tid in g.threads
    requires var pc := g.threads[tid].pc; pc.Entered? || pc.IndexSaved? || pc.Transferred?
    ensures Inv(p, s, Advance(g, tid))
  {
    hide Run, TakesPortPath, PortRead, IndexFor, GotSoFar, Linearized, DataStep;
    HolderIsCritical(p, s, g, tid);
    SameLog(p, s, g, Advance(g, tid));
    HolderStep(p, s, g, Advance(g, tid), tid);
  }

  lemma LockStepKeepsInv(p: Platform, s: DriverState, g: System, tid: nat)
    requires Inv(p, s, g) && tid in g.threads
    requires var pc := g.threads[tid].pc; pc.Waiting? || pc.IndexRestored?
    ensures Inv(p, s, Advance(g, tid))
  {
    SameLog(p, s, g, Advance(g, tid));
    hide Run, TakesPortPath, PortRead, IndexFor, Linearized, DataStep;
  }

  lemma AdvanceKeepsInv(p: Platform, s: DriverState, g: System, tid: nat)
    requires Inv(p, s, g)
    ensures Inv(p, s, Advance(g, tid))
  {
    hide Inv, DataStep, Commit, PortWrite, IndexFor;
    if tid in g.threads {
      match g.threads[tid].pc
      case Waiting => LockStepKeepsInv(p, s, g, tid);
      case Entered => IndexStepKeepsInv(p, s, g, tid);
      case IndexSaved => IndexStepKeepsInv(p, s, g, tid);
      case IndexSet => DataStepKeepsInv(p, s, g, tid);
      case Fetched => FetchedKeepsInv(p, s, g, tid);
      case Transferred => IndexStepKeepsInv(p, s, g, tid);
      case IndexRestored => LockStepKeepsInv(p, s, g, tid);
    }
  }

  /** Every interleaving, from a free lock, keeps the invariant. */
  lemma {:induction false} TraceKeepsInv(p: Platform, s: DriverState, es: seq<Event>)
    ensures Inv(p, s, Trace(Init(s.config, s.cf8), es))
  {
    var g0 := Init(s.config, s.cf8);
    if es == [] {
      assert Ops([]) == [] && Answers([]) == [];
    } else {
      hide Inv, Advance;
      TraceKeepsInv(p, s, es[..|es| - 1]);
      var g := Trace(g0, es[..|es| - 1]);
      match es[|es| - 1]
      case Call(tid, op) => CallKeepsInv(p, s, g, tid, op);
      case Step(tid) => AdvanceKeepsInv(p, s, g, tid);
    }
  }

  // ---------- every call takes effect once, in its thread's order ----------

  /** The logged operations of one thread. */
  function LoggedBy(log: seq<Entry>, tid: nat): seq<Op> {
    if log == [] then []
    else
      var last := log[|log| - 1];
      LoggedBy(log[..|log| - 1], tid) + if last.tid == tid then [last.op] else []
  }

  /** The operation a thread is in that has not taken effect yet. */
  function Pending(g: System, tid: nat): seq<Op> {
    if tid in g.threads && !g.threads[tid].pc.Transferred? && !g.threads[tid].pc.IndexRestored?
    then [g.threads[tid].op]
    else []
  }

  /** The calls of one thread that reach the lock: a thread makes none while it is inside one. */
  function CallsBy(g0: System, es: seq<Event>, tid: nat): seq<Op> {
    if es == [] then []
    else
      var init, e := es[..|es| - 1], es[|es| - 1];
      CallsBy(g0, init, tid)
      + if e.Call? && e.tid == tid && tid !in Trace(g0, init).threads && TakesPortPath(e.op) then [e.op] else []
  }

  lemma LoggedBySnoc(log: seq<Entry>, e: Entry, tid: nat)
    ensures LoggedBy(log + [e], tid) == LoggedBy(log, tid) + if e.tid == tid then [e.op] else []
  {
    assert (log + [e])[..|log|] == log;
  }

  /** A step leaves the log and what is pending as they are, or moves its thread's operation from one to
      the other. */
  lemma StepMovesPending(g: System, u: nat, tid: nat)
    ensures var g' := Advance(g, u);
            LoggedBy(g'.log, tid) + Pending(g', tid) == LoggedBy(g.log, tid) + Pending(g, tid)
  {
    hide LoggedBy;
    var g' := Advance(g, u);
    StepLogsPending(g, u);
    if g'.log != g.log {
      LoggedBySnoc(g.log, g'.log[|g.log|], tid);
    }
    StepKeepsThreads(g, u);
    hide Advance;
  }

  lemma DataStepLogs(g: System, tid: nat, t: Thread)
    ensures var g' := DataStep(g, tid, t);
            && tid in g'.threads && g'.threads == g.threads[tid := g'.threads[tid]] && g'.threads[tid].op == t.op
            && (if g'.threads[tid].pc.Transferred? then g'.log == g.log + [Entry(tid, t.op, g'.threads[tid].answer)]
                else g'.log == g.log && (g'.threads[tid].pc.IndexRestored? ==> t.pc.IndexRestored?))
  {
    hide PortRead, PortWrite, Extracted, Addr32, Split, BytesGot;
  }

  lemma StepLogsPending(g: System, u: nat)
    ensures var g' := Advance(g, u);
            if g'.log == g.log then Pending(g', u) == Pending(g, u)
            else |g'.log| == |g.log| + 1 && g'.log == g.log + [g'.log[|g.log|]]
                 && Pending(g, u) == [g'.log[|g.log|].op] && g'.log[|g.log|].tid == u && Pending(g', u) == []
  {
    hide DataStep, PortWrite, IndexFor, Merged, Addr32, Split, LoggedBy, Trace, TakesPortPath;
    if u in g.threads && g.threads[u].pc.IndexSet? {
      DataStepLogs(g, u, g.threads[u]);
    }
  }

  /** A step touches no other thread, and keeps the operation of its own. */
  lemma StepKeepsThreads(g: System, u: nat)
    ensures var g' := Advance(g, u);
            || g'.threads == g.threads
            || (u in g.threads && g'.threads == g.threads - {u})
            || (u in g.threads && u in g'.threads && g'.threads[u].op == g.threads[u].op
                && g'.threads == g.threads[u := g'.threads[u]])
  {
    hide DataStep, PortWrite, IndexFor, Merged, Addr32, Split, LoggedBy, Trace, TakesPortPath;
    if u in g.threads && g.threads[u].pc.IndexSet? {
      DataStepLogs(g, u, g.threads[u]);
    }
  }

  /** In every interleaving and for every thread: its logged operations, followed by the one it is in and
      that has not taken effect, are its calls in order. None is lost, repeated or invented. */
  lemma {:induction false} EveryCallTakesEffectOnce(s: DriverState, es: seq<Event>, tid: nat)
    ensures var g := Trace(Init(s.config, s.cf8), es);
            LoggedBy(g.log, tid) + Pending(g, tid) == CallsBy(Init(s.config, s.cf8), es, tid)
  {
    if es != [] {
      hide Advance, LoggedBy, TakesPortPath;
      EveryCallTakesEffectOnce(s, es[..|es| - 1], tid);
      var g := Trace(Init(s.config, s.cf8), es[..|es| - 1]);
      match es[|es| - 1]
      case Call(u, op) =>
      case Step(u) => StepMovesPending(g, u, tid);
    }
  }

  /** What has returned by any point of a run takes effect before whatever has not taken effect by then. */
  lemma {:induction false} ReturnedComesFirst(p: Platform, s: DriverState, es: seq<Event>, k: nat)
    requires k <= |es|
    ensures var past, g := Trace(Init(s.config, s.cf8), es[..k]), Trace(Init(s.config, s.cf8), es);
            past.returned <= past.log <= g.log
    decreases |es|
  {
    if k == |es| {
      assert es[..k] == es;
      hide Trace, Run;
      Linearizable(p, s, es);
    } else {
      var init := es[..|es| - 1];
      assert init[..k] == es[..k];
      ReturnedComesFirst(p, s, init, k);
      hide Advance;
      if es[|es| - 1].Step? {
        StepLogsPending(Trace(Init(s.config, s.cf8), init), es[|es| - 1].tid);
      }
    }
  }

  // ---------- progress ----------

  /** The accesses to the index and data registers between saving and restoring the index. */
  function DataSteps(op: Op, got: nat): int {
    match op
    case Read(_, _) => 2
    case Write(w, _) => if w == Dword then 2 else 3
    case Bulk(_) => 2 * (64 - got)
  }

  /** What a thread has left to do once it gets the lock: six steps for a read or a dword write, seven for a
      byte or word write, 132 for a bulk read. */
  function StepsLeft(t: Thread): int {
    match t.pc
    case Waiting => DataSteps(t.op, |t.got|) + 4
    case Entered => DataSteps(t.op, |t.got|) + 3
    case IndexSaved => DataSteps(t.op, |t.got|) + 2
    case IndexSet => DataSteps(t.op, |t.got|) + 1
    case Fetched => 3
    case Transferred => 2
    case IndexRestored => 1
  }

  /** The thread holds the lock, or waits for a free one. */
  predicate MayRun(g: System, tid: nat) {
    tid in g.threads && (g.lock == HeldBy(tid) || (g.lock.Free? && g.threads[tid].pc.Waiting?))
  }

  /** What one step of such a thread does to itself and to the lock. */
  predicate OneStepOn(g: System, g': System, tid: nat)
    requires tid in g.threads
  {
    var t := g.threads[tid];
    if StepsLeft(t) == 1 then g'.threads == g.threads - {tid} && g'.lock.Free?
    else
      && tid in g'.threads && g'.lock == HeldBy(tid) && g'.threads - {tid} == g.threads - {tid}
      && g'.threads[tid].op == t.op && StepsLeft(g'.threads[tid]) == StepsLeft(t) - 1 > 0
  }

  /** The lock is never in the way of its holder, nor a free one of anybody: each step is one step less. */
  lemma StepMakesProgress(p: Platform, s: DriverState, g: System, tid: nat)
    requires Inv(p, s, g) && MayRun(g, tid)
    ensures OneStepOn(g, Advance(g, tid), tid) && StepsLeft(g.threads[tid]) >= 1
  {
    var t := g.threads[tid];
    hide Linearized, TakesPortPath, PortRead, PortWrite, IndexFor, GotSoFar, Extracted, Merged, Addr32, Split, BytesGot;
    match t.pc
    case Waiting => LockIsTaken(g, tid);
    case IndexSet => DataStepMakesProgress(g, tid);
    case _ =>
      hide DataStep;
      var g' := Advance(g, tid);
      assert g'.threads - {tid} == g.threads - {tid};
  }

  lemma LockIsTaken(g: System, tid: nat)
    requires tid in g.threads && g.lock.Free? && g.threads[tid].pc.Waiting? && WaitingKnows(g.threads[tid])
    ensures OneStepOn(g, Advance(g, tid), tid) && StepsLeft(g.threads[tid]) >= 1
  {
    hide DataStep, TakesPortPath;
    var g' := Advance(g, tid);
    assert g'.threads - {tid} == g.threads - {tid};
  }

  lemma DataStepMakesProgress(g: System, tid: nat)
    requires tid in g.threads && g.lock == HeldBy(tid) && g.threads[tid].pc.IndexSet? && |g.threads[tid].got| < 64
    requires g.threads[tid].got != [] ==> g.threads[tid].op.Bulk?
    ensures OneStepOn(g, Advance(g, tid), tid) && StepsLeft(g.threads[tid]) >= 1
  {
    hide PortRead, PortWrite, IndexFor, Extracted, Merged, Addr32, Split, BytesGot;
    var g' := Advance(g, tid);
    assert g'.threads - {tid} == g.threads - {tid};
  }

  /** A thread stepped alone. */
  function Alone(g: System, tid: nat, n: nat): System
    decreases n
  {
    if n == 0 then g else Alone(Advance(g, tid), tid, n - 1)
  }

  /** Everything logged has returned, and only a pending operation of this thread is new in the log. */
  predicate ReturnedOwn(g: System, g': System, tid: nat) {
    && g'.returned == g'.log
    && (if Pending(g, tid) == [] then g'.log == g.log
        else |g'.log| == |g.log| + 1 && g'.log == g.log + [Entry(tid, Pending(g, tid)[0], g'.log[|g.log|].answer)])
  }

  /** From every reachable system a thread that holds the lock, or finds it free, returns after exactly the
      steps it has left: it frees the lock, adds its own operation to the log if it was not there yet, and no
      other thread has moved. */
  lemma {:induction false} AloneReturns(p: Platform, s: DriverState, g: System, tid: nat)
    requires Inv(p, s, g) && MayRun(g, tid)
    ensures StepsLeft(g.threads[tid]) >= 1
    ensures var g' := Alone(g, tid, StepsLeft(g.threads[tid]));
            Inv(p, s, g') && g'.lock.Free? && g'.threads == g.threads - {tid} && ReturnedOwn(g, g', tid)
    decreases StepsLeft(g.threads[tid])
  {
    hide Inv, Advance, StepsLeft, Pending;
    var n := StepsLeft(g.threads[tid]);
    StepMakesProgress(p, s, g, tid);
    AdvanceKeepsInv(p, s, g, tid);
    if n == 1 {
      LastStep(p, s, g, tid);
    } else {
      StepLogsPending(g, tid);
      AloneReturns(p, s, Advance(g, tid), tid);
    }
  }

  lemma LastStep(p: Platform, s: DriverState, g: System, tid: nat)
    requires Inv(p, s, g) && MayRun(g, tid) && StepsLeft(g.threads[tid]) == 1
    ensures var g' := Alone(g, tid, 1);
            g' == Advance(g, tid) && g'.threads == g.threads - {tid} && g'.lock.Free? && ReturnedOwn(g, g', tid)
  {
    hide Linearized, DataStep, TakesPortPath, PortRead, PortWrite, IndexFor, GotSoFar;
    assert Alone(Advance(g, tid), tid, 0) == Advance(g, tid);
  }

  /** A call: lock, save, set, access, restore, unlock; a byte or word write accesses twice, a bulk read sets
      and accesses 64 times. */
  function CallSteps(op: Op): nat {
    match op
    case Read(_, _) => 6
    case Write(w, _) => if w == Dword then 6 else 7
    case Bulk(_) => 132
  }

  function AfterCall(g: System, tid: nat, op: Op): System {
    Alone(Next(g, Call(tid, op)), tid, CallSteps(op))
  }

  /** From every reachable system with a free lock, a call stepped alone is the accessor: after that many steps
      it has returned the accessor's answer, left the accessor's configuration space and the index as it was, and
      nothing else has changed. */
  lemma CallAloneIsAccessor(p: Platform, s: DriverState, g: System, tid: nat, op: Op)
    requires Inv(p, s, g) && g.lock.Free? && tid !in g.threads && TakesPortPath(op)
    ensures var g', answer := AfterCall(g, tid, op), Exec(p, s.(config := g.config), op).1;
            && g'.threads == g.threads && g'.lock.Free? && g'.cf8 == g.cf8
            && g'.log == g.log + [Entry(tid, op, answer)] && g'.returned == g.returned + [Entry(tid, op, answer)]
            && Exec(p, s.(config := g.config), op).0 == s.(config := g'.config)
  {
    hide Inv, Exec, Alone;
    var g1 := Next(g, Call(tid, op));
    CallKeepsInv(p, s, g, tid, op);
    FreeLockMeans(p, s, g);
    assert MayRun(g1, tid) && StepsLeft(g1.threads[tid]) == CallSteps(op);
    assert Pending(g1, tid) == [op];
    AloneReturns(p, s, g1, tid);
    var g' := AfterCall(g, tid, op);
    FreeLockMeans(p, s, g');
    assert g'.threads == g.threads;
    LastOfLog(p, s, g, g', tid, op, g'.log[|g.log|].answer);
  }

  lemma FreeLockMeans(p: Platform, s: DriverState, g: System)
    requires Inv(p, s, g) && g.lock.Free?
    ensures g.cf8 == s.cf8 && g.returned == g.log && Linearized(p, s, g)
  {
    hide Linearized, TakesPortPath;
  }

  /** The log explains both systems, so the last operation takes one to the other. */
  lemma LastOfLog(p: Platform, s: DriverState, g: System, g': System, tid: nat, op: Op, answer: Answer)
    requires Linearized(p, s, g) && Linearized(p, s, g') && g'.log == g.log + [Entry(tid, op, answer)]
    ensures Exec(p, s.(config := g.config), op) == (s.(config := g'.config), answer)
  {
    hide Exec, Run;
    RunSnoc(p, s, Ops(g.log), op);
    assert Ops(g'.log) == Ops(g.log) + [op];
    assert Answers(g'.log)[|g.log|] == answer;
  }

  function Steps(tid: nat, n: nat): (es: seq<Event>)
    ensures |es| == n && forall i :: 0 <= i < n ==> es[i] == Step(tid)
  {
    seq(n, _ => Step(tid))
  }

  lemma {:induction false} StepsAreAlone(g0: System, es: seq<Event>, tid: nat, n: nat)
    ensures Trace(g0, es + Steps(tid, n)) == Alone(Trace(g0, es), tid, n)
    decreases n
  {
    hide Advance;
    if n == 0 {
      assert es + Steps(tid, 0) == es;
    } else {
      var es' := es + [Step(tid)];
      assert es'[..|es|] == es;
      StepsAreAlone(g0, es', tid, n - 1);
      assert es' + Steps(tid, n - 1) == es + Steps(tid, n);
    }
  }

  /** No reachable system is stuck: some schedule of steps alone, without further calls, makes every thread
      return and frees the lock. */
  lemma {:induction false} EveryoneReturns(p: Platform, s: DriverState, es: seq<Event>) returns (more: seq<Event>)
    ensures forall e :: e in more ==> e.Step?
    ensures var g := Trace(Init(s.config, s.cf8), es + more);
            g.threads == map[] && g.lock.Free? && g.returned == g.log && g.cf8 == s.cf8
    decreases |Trace(Init(s.config, s.cf8), es).threads|
  {
    hide Trace, Inv, Advance, StepsLeft;
    TraceKeepsInv(p, s, es);
    var g0, g := Init(s.config, s.cf8), Trace(Init(s.config, s.cf8), es);
    if g.threads == map[] {
      more := [];
      assert es + more == es;
      NobodyLeft(p, s, g);
    } else {
      var tid := SomebodyMayRun(p, s, g);
      var n := StepsLeft(g.threads[tid]);
      AloneReturns(p, s, g, tid);
      StepsAreAlone(g0, es, tid, n);
      FewerThreads(g, tid);
      var rest := EveryoneReturns(p, s, es + Steps(tid, n));
      more := Steps(tid, n) + rest;
      assert es + more == es + Steps(tid, n) + rest;
    }
  }

  lemma FewerThreads(g: System, tid: nat)
    requires tid in g.threads
    ensures |g.threads - {tid}| < |g.threads|
  {
    assert (g.threads - {tid}).Keys == g.threads.Keys - {tid};
    assert |g.threads.Keys - {tid}| == |g.threads.Keys| - 1;
  }

  lemma NobodyLeft(p: Platform, s: DriverState, g: System)
    requires Inv(p, s, g) && g.threads == map[]
    ensures g.lock.Free? && g.returned == g.log && g.cf8 == s.cf8
  {
    hide Linearized;
  }

  lemma SomebodyMayRun(p: Platform, s: DriverState, g: System) returns (tid: nat)
    requires Inv(p, s, g) && g.threads != map[]
    ensures MayRun(g, tid)
  {
    hide Linearized, HolderKnows, WaitingKnows;
    if g.lock.HeldBy? {
      tid := g.lock.tid;
    } else {
      assert exists u :: u in g.threads.Keys by {
        assert g.threads.Keys != {};
      }
      tid :| tid in g.threads.Keys;
    }
  }

  // ---------- what it means ----------

  /** For every number of threads and every interleaving: the operations in the order of their atomic
      points, run one after the other, give the configuration space and every answer, so no
      read-modify-write is lost; callers get exactly those answers, in that order; and whenever the
      lock is free the index register holds its original value. */
  lemma Linearizable(p: Platform, s: DriverState, es: seq<Event>)
    ensures var g := Trace(Init(s.config, s.cf8), es);
            && Run(p, s, Ops(g.log)) == (s.(config := g.config), Answers(g.log))
            && g.returned <= g.log
            && |g.log| - |g.returned| <= 1
            && (g.lock.Free? ==> g.returned == g.log && g.cf8 == s.cf8)
  {
    hide Run, Trace, HolderKnows, WaitingKnows;
    TraceKeepsInv(p, s, es);
  }

  /** With in-range requests the interleaving is a sequence of reads and writes of bytes. */
  lemma InterleavingIsByteMap(p: Platform, s: DriverState, es: seq<Event>)
    requires GoodPlatform(p) && Valid(s)
    requires forall e :: e in es && e.Call? ==> ServedOp(p, e.op)
    ensures var g := Trace(Init(s.config, s.cf8), es);
            MeaningOfRun(View(s.config), Ops(g.log)) == (View(g.config), Answers(g.log))
  {
    hide Run, MeaningOfRun, View, ServedOp, GoodPlatform, Valid, Trace;
    var g := Trace(Init(s.config, s.cf8), es);
    Linearizable(p, s, es);
    LogIsServed(p, s, es);
    OneByteMap(p, s, Ops(g.log));
  }

  predicate AllServed(p: Platform, g: System) {
    && (forall i :: 0 <= i < |g.log| ==> ServedOp(p, g.log[i].op))
    && (forall tid :: tid in g.threads ==> ServedOp(p, g.threads[tid].op))
  }

  lemma {:induction false} LogIsServed(p: Platform, s: DriverState, es: seq<Event>)
    requires forall e :: e in es && e.Call? ==> ServedOp(p, e.op)
    ensures AllServed(p, Trace(Init(s.config, s.cf8), es))
  {
    hide ServedOp, Advance;
    if es != [] {
      var e := es[|es| - 1];
      assert e in es;
      LogIsServed(p, s, es[..|es| - 1]);
      var g := Trace(Init(s.config, s.cf8), es[..|es| - 1]);
      match e
      case Call(tid, op) => assert AllServed(p, Next(g, e));
      case Step(tid) => StepLogsOwnOp(g, tid); assert AllServed(p, Next(g, e));
    }
  }

  /** A step keeps every thread's operation and logs at most the operation of its thread. */
  lemma StepLogsOwnOp(g: System, tid: nat)
    ensures var g' := Advance(g, tid);
            && (g'.log == g.log || (tid in g.threads && |g'.log| == |g.log| + 1
                                    && g'.log == g.log + [Entry(tid, g.threads[tid].op, g'.log[|g.log|].answer)]))
            && (forall u :: u in g'.threads ==> u in g.threads && g'.threads[u].op == g.threads[u].op)
  {
    StepLogsPending(g, tid);
    StepKeepsThreads(g, tid);
    hide Advance;
  }
}
