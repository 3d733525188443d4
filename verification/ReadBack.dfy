/**
 What a user of PCI-DEV sees: with PCI-DEV in front, typing a value at a cell and pressing ENTER leaves that
 value in configuration space, and the very next paint shows it.
 */
module ReadBack {
  import opened AddressCodec
  import opened Bits
  import opened ConfigStore
  import opened EndToEnd
  import opened HexInput
  import opened PcixDriver
  import opened Words
  import D = Desk
  import F = FocusTheorems
  import M = MainLoop
  import P = PciScreens

  /** Between two iterations, PCI-DEV is in front and no message is waiting. */
  predicate DevInFront(d: D.Desk) {
    && M.Between(d) && Linked(d.wins) && d.fore == M.Dev(d.wins) && d.box == []
    && D.KeyPress in d.wins[d.fore].hooks && D.Paint in d.wins[d.fore].hooks
  }

  /** A key that reaches the window in front. */
  predicate Reaches(wins: seq<D.WindowInfo>, key: int) {
    key > 0 && !M.Quits(key) && forall i :: 0 <= i < |wins| ==> wins[i].shortKey != key
  }

  lemma DevDoesNotPost(d: D.Desk, hook: D.Hook, arg: int)
    requires DevInFront(d) && hook in d.wins[d.fore].hooks
    ensures var d' := D.Invoke(d, d.fore, hook, arg);
            d'.box == [] && d'.wins == d.wins && d'.states == d.states && d'.fore == d.fore
  {
    M.ListExists(d.wins);
  }

  lemma DevKeyDrains(d: D.Desk, key: int)
    requires DevInFront(d) && Reaches(d.wins, key)
    ensures D.HandleKey(d, key) == D.Invoke(d, d.fore, D.KeyPress, key)
    ensures D.WellFormed(D.HandleKey(d, key)) && D.BoxInRange(D.HandleKey(d, key))
    ensures D.Drain(D.HandleKey(d, key)) == D.HandleKey(d, key)
  {
    F.DispatchesToForeground(d);
    DevDoesNotPost(d, D.KeyPress, key);
    hide D.Invoke, F.AllToldAlternately;
    var d1 := D.HandleKey(d, key);
    assert d1.(box := []) == d1 && D.Reverse([]) == [];
  }

  /** One iteration: the key handler, then a paint of what it leaves. */
  lemma DevIteration(p: Platform, found: seq<Op> -> seq<P.Device>, d: D.Desk, key: int)
    requires DevInFront(d) && Reaches(d.wins, key)
    ensures D.BoxInRange(D.HandleKey(d, key)) && DevInFront(D.Iterate(d, key)) && D.Iterate(d, key).wins == d.wins
    ensures var (s, ops) := P.DevKey(Screens(found, d), key);
            var d' := D.Iterate(d, key);
            Screens(found, d') == s && Issued(found, d') == Issued(found, d) + ops + [P.PaintRequest(s)]
  {
    M.ListExists(d.wins);
    M.IterationScans(d, key);
    DevKeyDrains(d, key);
    DevDoesNotPost(d, D.KeyPress, key);
    InvokePlays(found, d, d.fore, D.KeyPress, key);
    hide Play, P.DevKey, P.PaintRequest, M.Between, D.Invoke, D.HandleKey, D.Drain;
    var d1 := D.HandleKey(d, key);
    M.BetweenIsWellFormed(d);
    BackgroundPaintIsSilent(p, found, d1, 0);
    var d2 := D.PaintBackground(d1, 0);
    FrontIsForeground(d);
    InvokePlays(found, d2, d.fore, D.Paint, 1);
  }

  lemma FrontIsForeground(d: D.Desk)
    requires M.Between(d) && d.fore >= 0
    ensures d.states[d.fore].Foreground?
  {}

  /** Between two iterations with consistent screens, after the first scan. */
  ghost predicate Ready(p: Platform, found: seq<Op> -> seq<P.Device>, d: D.Desk) {
    DevInFront(d) && Setting(p, found) && Consistent(p, found, d) && Screens(found, d).list != []
  }

  lemma ReadyIteration(p: Platform, found: seq<Op> -> seq<P.Device>, d: D.Desk, key: int)
    requires Ready(p, found, d) && Reaches(d.wins, key)
    ensures D.BoxInRange(D.HandleKey(d, key)) && Ready(p, found, D.Iterate(d, key)) && D.Iterate(d, key).wins == d.wins
    ensures var (s, ops) := P.DevKey(Screens(found, d), key);
            var d' := D.Iterate(d, key);
            Screens(found, d') == s && Issued(found, d') == Issued(found, d) + ops + [P.PaintRequest(s)]
  {
    DevIteration(p, found, d, key);
    P.DevKeyKeepsInv(p, Screens(found, d), key);
    hide Play, P.DevKey, P.PaintRequest, D.Iterate, D.HandleKey, Setting, P.Inv;
    IterationKeepsGood(p, found, d, key);
  }

  /** The keys of a run, one iteration each. */
  lemma {:induction false} TypingRun(p: Platform, found: seq<Op> -> seq<P.Device>, d: D.Desk, keys: seq<int>)
    requires Ready(p, found, d) && forall key :: key in keys ==> Reaches(d.wins, key)
    ensures M.Between(d)
    ensures var d' := M.Loop(d, keys);
            Ready(p, found, d') && d'.wins == d.wins && Screens(found, d') == P.DevKeys(Screens(found, d), keys)
    decreases |keys|
  {
    assert M.Between(d);
    if keys != [] {
      hide Ready, Reaches, M.Between, D.Iterate, D.HandleKey, Screens, P.DevKey;
      assert keys[0] in keys;
      ReadyIteration(p, found, d, keys[0]);
      ReachesIsNoQuit(d.wins, keys[0]);
      M.IterationKeepsBetween(d, keys[0]);
      TypingRun(p, found, D.Iterate(d, keys[0]), keys[1..]);
    }
  }

  lemma ReachesIsNoQuit(wins: seq<D.WindowInfo>, key: int)
    requires Reaches(wins, key)
    ensures !M.Quits(key)
  {}

  lemma {:induction false} LoopSnoc(d: D.Desk, keys: seq<int>, key: int)
    requires M.Between(d) && !M.Quits(key) && forall k :: k in keys ==> !M.Quits(k)
    ensures var d1 := M.Loop(d, keys);
            D.WellFormed(d1) && D.BoxInRange(D.HandleKey(d1, key)) && M.Loop(d, keys + [key]) == D.Iterate(d1, key)
    decreases |keys|
  {
    hide M.Between, D.Iterate, D.HandleKey;
    if keys == [] {
      M.BetweenIsWellFormed(d);
      M.IterationKeepsBetween(d, key);
      assert ([] + [key])[1..] == [];
      assert M.Loop(D.Iterate(d, key), []) == D.Iterate(d, key);
    } else {
      assert keys[0] in keys;
      M.BetweenIsWellFormed(d);
      M.IterationKeepsBetween(d, keys[0]);
      assert (keys + [key])[1..] == keys[1..] + [key];
      LoopSnoc(D.Iterate(d, keys[0]), keys[1..], key);
    }
  }

  // ---------- what the driver answers ----------

  lemma {:induction false} RunAppend(p: Platform, s: DriverState, a: seq<Op>, b: seq<Op>)
    ensures var (s1, as1) := Run(p, s, a);
            var (s2, as2) := Run(p, s1, b);
            Run(p, s, a + b) == (s2, as1 + as2)
    decreases |a|
  {
    hide Exec;
    if a == [] {
      assert a + b == b && Run(p, s, a).1 + Run(p, s, b).1 == Run(p, s, b).1;
    } else {
      assert (a + b)[1..] == a[1..] + b;
      var (s0, x) := Exec(p, s, a[0]);
      RunAppend(p, s0, a[1..], b);
      var (s1, as1) := Run(p, s0, a[1..]);
      assert [x] + as1 + Run(p, s1, b).1 == [x] + (as1 + Run(p, s1, b).1);
    }
  }

  /** A page of bytes holds v at offset o. */
  predicate BytesHold(bytes: seq<uint8>, o: int, w: Width, v: uint32) {
    && |bytes| == MASSBUF && 0 <= o && o + Size(w) <= MASSBUF
    && forall i :: 0 <= i < Size(w) ==> bytes[o + i] == Lane(Split(v), i)
  }

  /** A write, then a bulk read of the page it lies on. */
  lemma WriteThenBlock(p: Platform, s: DriverState, w: Width, req: Request, page: Request, o: nat)
    requires GoodPlatform(p) && Valid(s) && GoodOp(p, Op.Write(w, req)) && GoodOp(p, Bulk(page))
    requires KeyOf(req) == KeyOf(page) + o && o + Size(w) <= MASSBUF
    ensures var (s', answers) := Run(p, s, [Op.Write(w, req), Bulk(page)]);
            && ReadBytes(w, View(s'.config), KeyOf(req)) == req.buf % Limit(w)
            && |answers| == 2 && answers[1].Block? && BytesHold(answers[1].bytes, o, w, req.buf)
  {
    hide *;
    WriteThenRead(p, s, w, req, page);
    var (s', answers) := Run(p, s, [Op.Write(w, req), Bulk(page)]);
    WrittenIsHeld(w, View(s.config), View(s'.config), KeyOf(page), o, req.buf);
  }

  lemma WrittenIsHeld(w: Width, b: ByteMap, b': ByteMap, key: int, o: nat, v: uint32)
    requires b' == WriteBytes(w, b, key + o, v) && o + Size(w) <= MASSBUF
    ensures ReadBytes(w, b', key + o) == v % Limit(w) && BytesHold(BlockAt(b', key), o, w, v)
  {
    hide *;
    ReadAfterWrite(w, b, key + o, v);
    BlockShows(w, b, key, o, v);
  }

  lemma WriteThenRead(p: Platform, s: DriverState, w: Width, req: Request, page: Request)
    requires GoodPlatform(p) && Valid(s) && GoodOp(p, Op.Write(w, req)) && GoodOp(p, Bulk(page))
    ensures var (s', answers) := Run(p, s, [Op.Write(w, req), Bulk(page)]);
            && View(s'.config) == WriteBytes(w, View(s.config), KeyOf(req), req.buf)
            && answers == [Done, Block(BlockAt(View(s'.config), KeyOf(page)))]
  {
    GoodOpIsPlain(p, View(s.config), Op.Write(w, req));
    assert WriteAt(w, View(s.config), KeyOf(req), req.buf) == WriteBytes(w, View(s.config), KeyOf(req), req.buf);
    hide WriteResult, BulkBlock, BulkSettled, BulkRefused, View, ServedOp, GoodRequest, GoodPlatform, Valid, KeyOf;
    hide WriteAt, WriteBytes, BlockAt, Run;
    WriteAgrees(p, s, w, req);
    BulkAgrees(p, WriteResult(p, w, s, req), page);
    TwoSteps(p, s, Op.Write(w, req), Bulk(page));
  }

  lemma BlockShows(w: Width, b: ByteMap, key: int, o: nat, v: uint32)
    requires o + Size(w) <= MASSBUF
    ensures BytesHold(BlockAt(WriteBytes(w, b, key + o, v), key), o, w, v)
  {
    hide Split, Lane;
    var b' := WriteBytes(w, b, key + o, v);
    forall i | 0 <= i < Size(w)
      ensures BlockAt(b', key)[o + i] == Lane(Split(v), i)
    {
      assert BlockAt(b', key)[o + i] == b'[key + (o + i)];
    }
  }

  /** The write of a typed value, and the read of the page it is on. */
  function TypedPair(s: P.Pci, v: uint32): seq<Op> {
    [Op.Write(s.cur.mode, P.RequestFor(s, s.page + Offset(s.cur), v)), Bulk(P.RequestFor(s, s.page, 0))]
  }

  /** ENTER after typing: one iteration issues exactly these two. */
  lemma EnterRequests(p: Platform, found: seq<Op> -> seq<P.Device>, d: D.Desk, s: P.Pci, v: nat, keys: seq<int>)
    requires Ready(p, found, d) && Reaches(d.wins, ENTER) && P.TypesValue(s, v, keys)
    requires Screens(found, d) == P.DevKeys(s, keys)
    ensures v < 0x1_0000_0000
    ensures D.BoxInRange(D.HandleKey(d, ENTER)) && Ready(p, found, D.Iterate(d, ENTER))
    ensures Issued(found, D.Iterate(d, ENTER)) == Issued(found, d) + TypedPair(s, v)
  {
    TypedFits(s, v, keys);
    ReadyIteration(p, found, d, ENTER);
    P.TypedValueIsWritten(s, v, keys);
    SamePage(s);
    hide *;
    var w := [Op.Write(s.cur.mode, P.RequestFor(s, s.page + Offset(s.cur), v))];
    var r := [Bulk(P.RequestFor(s, s.page, 0))];
    assert Issued(found, d) + w + r == Issued(found, d) + (w + r);
    PairIs(s, v);
  }

  lemma TypedFits(s: P.Pci, v: nat, keys: seq<int>)
    requires P.TypesValue(s, v, keys)
    ensures v < Limit(s.cur.mode) <= 0x1_0000_0000
  {}

  lemma PairIs(s: P.Pci, v: uint32)
    ensures TypedPair(s, v)
            == [Op.Write(s.cur.mode, P.RequestFor(s, s.page + Offset(s.cur), v))] + [Bulk(P.RequestFor(s, s.page, 0))]
  {}

  lemma SamePage(s: P.Pci)
    ensures P.PaintRequest(s.(wbuf := 0)) == Bulk(P.RequestFor(s, s.page, 0))
  {}

  lemma CellOnPage(p: Platform, s: P.Pci, v: uint32)
    requires P.Inv(p, s)
    ensures var o := Offset(s.cur);
            && 0 <= o && o + Size(s.cur.mode) <= MASSBUF
            && KeyOf(P.RequestFor(s, s.page + o, v)) == KeyOf(P.RequestFor(s, s.page, 0)) + o
  {
    OnItsPage(p, s);
    var o := Offset(s.cur);
    hide *;
    P.RegisterFits(p, s, s.page + o);
    P.RegisterFits(p, s, s.page);
    P.RequestOf(s, s.page + o, v);
    P.RequestOf(s, s.page, 0);
    KeyShift(P.RequestFor(s, s.page, 0), P.RequestFor(s, s.page + o, v), o);
  }

  lemma OnItsPage(p: Platform, s: P.Pci)
    requires P.Inv(p, s)
    ensures 0 <= Offset(s.cur) && Offset(s.cur) + Size(s.cur.mode) <= MASSBUF && 1 <= Size(s.cur.mode)
  {
    OffsetAligned(s.cur);
    hide OnPage, Offset, P.Selected, P.GoodList;
  }

  lemma KeyShift(a: Request, b: Request, o: int)
    requires (b.bus, b.dev, b.fun, b.reg) == (a.bus, a.dev, a.fun, a.reg + o)
    ensures KeyOf(b) == KeyOf(a) + o
  {}

  lemma PairAnswers(p: Platform, s: P.Pci, v: uint32, hw: DriverState)
    requires GoodPlatform(p) && P.Inv(p, s) && Valid(hw) && v < Limit(s.cur.mode)
    requires GoodOp(p, TypedPair(s, v)[0]) && GoodOp(p, TypedPair(s, v)[1])
    ensures var (hw', answers) := Run(p, hw, TypedPair(s, v));
            && ReadBytes(s.cur.mode, View(hw'.config), KeyOf(P.RequestFor(s, s.page + Offset(s.cur), v))) == v
            && Shows(answers, Offset(s.cur), s.cur.mode, v)
  {
    CellOnPage(p, s, v);
    CellValue(s, v);
    var cell := P.RequestFor(s, s.page + Offset(s.cur), v);
    var page := P.RequestFor(s, s.page, 0);
    PairIs(s, v);
    hide GoodPlatform, P.Inv, Valid, Offset, KeyOf, P.RequestFor, View, ReadBytes, GoodOp, Run, BytesHold, Limit, Size;
    WriteThenBlock(p, hw, s.cur.mode, cell, page, Offset(s.cur));
  }

  lemma ShowsLast(before: seq<Answer>, answers: seq<Answer>, o: int, w: Width, v: uint32)
    requires Shows(answers, o, w, v)
    ensures Shows(before + answers, o, w, v)
  {
    hide BytesHold;
    assert (before + answers)[|before + answers| - 1] == answers[|answers| - 1];
  }

  /** A run that ends with the pair, from any state of the hardware. */
  lemma PairIsShown(p: Platform, s: P.Pci, v: uint32, before: seq<Op>, hw: DriverState)
    requires GoodPlatform(p) && P.Inv(p, s) && Valid(hw) && v < Limit(s.cur.mode)
    requires AllGood(p, before + TypedPair(s, v))
    ensures var (hw', answers) := Run(p, hw, before + TypedPair(s, v));
            && ReadBytes(s.cur.mode, View(hw'.config), KeyOf(P.RequestFor(s, s.page + Offset(s.cur), v))) == v
            && Shows(answers, Offset(s.cur), s.cur.mode, v)
  {
    PairIsGood(p, s, v, before);
    RunsStayValid(p, before, hw);
    hide *;
    var (hw1, before1) := Run(p, hw, before);
    PairAnswers(p, s, v, hw1);
    RunAppend(p, hw, before, TypedPair(s, v));
    ShowsLast(before1, Run(p, hw1, TypedPair(s, v)).1, Offset(s.cur), s.cur.mode, v);
  }

  lemma RunsStayValid(p: Platform, ops: seq<Op>, hw: DriverState)
    requires GoodPlatform(p) && Valid(hw) && AllGood(p, ops)
    ensures Valid(Run(p, hw, ops).0)
  {
    hide Run, MeaningOfRun, View, ServedOp, Valid, GoodPlatform;
    OneByteMap(p, hw, ops);
  }

  lemma CellValue(s: P.Pci, v: uint32)
    requires v < Limit(s.cur.mode)
    ensures P.RequestFor(s, s.page + Offset(s.cur), v).buf % Limit(s.cur.mode) == v
  {}

  lemma PairIsGood(p: Platform, s: P.Pci, v: uint32, before: seq<Op>)
    requires AllGood(p, before + TypedPair(s, v))
    ensures AllGood(p, before)
    ensures GoodOp(p, TypedPair(s, v)[0]) && GoodOp(p, TypedPair(s, v)[1])
  {
    hide GoodOp;
    var all := before + TypedPair(s, v);
    assert TypedPair(s, v)[0] in all && TypedPair(s, v)[1] in all;
    assert forall op :: op in before ==> op in all;
  }

  /** The last answer is a block that holds v at offset o. */
  predicate Shows(answers: seq<Answer>, o: int, w: Width, v: uint32) {
    answers != [] && answers[|answers| - 1].Block? && BytesHold(answers[|answers| - 1].bytes, o, w, v)
  }

  /** With PCI-DEV in front, type the print of v at a cell and press ENTER, with keys that are no window's
      shortcut: configuration space holds v there, and the last answer, the block that is painted, shows it. */
  lemma ReadyValueIsShown(p: Platform, found: seq<Op> -> seq<P.Device>, d: D.Desk,
                          v: nat, keys: seq<int>, hw: DriverState)
    requires Ready(p, found, d) && P.TypesValue(Screens(found, d), v, keys) && Valid(hw)
    requires forall key :: key in keys + [ENTER] ==> Reaches(d.wins, key)
    ensures M.Between(d) && v < 0x1_0000_0000
    ensures var s := Screens(found, d);
            var cell := P.RequestFor(s, s.page + Offset(s.cur), v);
            var (hw', answers) := Run(p, hw, Issued(found, M.Loop(d, keys + [ENTER])));
            && ReadBytes(s.cur.mode, View(hw'.config), KeyOf(cell)) == v
            && Shows(answers, Offset(s.cur), s.cur.mode, v)
            && EndsWith(Issued(found, M.Loop(d, keys + [ENTER])), TypedPair(s, v))
  {
    hide *;
    var s := Screens(found, d);
    AllReach(d.wins, keys);
    TypedFits(s, v, keys);
    TypingRun(p, found, d, keys);
    var d1 := M.Loop(d, keys);
    ReadyMeans(p, found, d);
    LoopSnoc(d, keys, ENTER);
    EnterRequests(p, found, d1, s, v, keys);
    ReadyMeans(p, found, D.Iterate(d1, ENTER));
    PairIsShown(p, s, v, Issued(found, d1), hw);
    EndsWithTail(Issued(found, d1), TypedPair(s, v));
  }

  predicate EndsWith(ops: seq<Op>, tail: seq<Op>) {
    |tail| <= |ops| && ops[|ops| - |tail|..] == tail
  }

  lemma EndsWithTail(ops: seq<Op>, tail: seq<Op>)
    ensures EndsWith(ops + tail, tail)
  {}

  /** The last two requests write v to the cell under the cursor, byte 16 * y + x of the page, of the device under
      the shared index, and read that page of the same device; configuration space holds v in that cell, and so
      does the block that was read last. */
  ghost predicate CellHolds(s: P.Pci, v: uint32, ops: seq<Op>, hw: DriverState, answers: seq<Answer>) {
    var o, w := 16 * s.cur.y + s.cur.x, s.cur.mode;
    && 0 <= s.curr < |s.list + s.past| && 0 <= s.page < 0x1000 && 0 <= s.page + o < 0x1000
    && var d := (s.list + s.past)[s.curr];
       && EndsWith(ops, [Op.Write(w, P.DeviceRequest(d, s.page + o, v)), Bulk(P.DeviceRequest(d, s.page, 0))])
       && ReadBytes(w, View(hw.config), Key(d.bus, d.dev, d.fun, s.page + o)) == v
       && Shows(answers, o, w, v)
  }

  /** The two requests name the device under the shared index, and its byte 16 * y + x of the page. */
  lemma PairIsIndexed(p: Platform, s: P.Pci, v: uint32)
    requires P.Inv(p, s) && s.list != []
    ensures 0 <= s.curr < |s.list + s.past| && 0 <= s.page + 16 * s.cur.y + s.cur.x < 0x1000 && 0 <= s.page < 0x1000
    ensures var d, reg := (s.list + s.past)[s.curr], s.page + 16 * s.cur.y + s.cur.x;
            && TypedPair(s, v)
               == [Op.Write(s.cur.mode, P.DeviceRequest(d, reg, v)), Bulk(P.DeviceRequest(d, s.page, 0))]
            && KeyOf(P.RequestFor(s, s.page + Offset(s.cur), v)) == Key(d.bus, d.dev, d.fun, reg)
            && Offset(s.cur) == 16 * s.cur.y + s.cur.x
  {
    P.SelectedIsIndexed(p, s);
    P.CellRegister(p, s);
    hide P.Selected, P.Inv, P.RequestFor, Key, Offset;
    P.RequestOf(s, s.page + Offset(s.cur), v);
    P.RequestOf(s, s.page, 0);
  }

  lemma AllReach(wins: seq<D.WindowInfo>, keys: seq<int>)
    requires forall key :: key in keys + [ENTER] ==> Reaches(wins, key)
    ensures forall key :: key in keys ==> Reaches(wins, key) && !M.Quits(key)
    ensures Reaches(wins, ENTER) && !M.Quits(ENTER)
  {
    assert ENTER in keys + [ENTER];
    assert forall key :: key in keys ==> key in keys + [ENTER];
  }

  lemma ReadyMeans(p: Platform, found: seq<Op> -> seq<P.Device>, d: D.Desk)
    requires Ready(p, found, d)
    ensures GoodPlatform(p) && P.Inv(p, Screens(found, d)) && AllGood(p, Issued(found, d)) && M.Between(d)
    ensures Screens(found, d).list != []
  {
    hide Screens, Issued, AllGood, P.Inv, M.Between, GoodPlatform;
  }

  // ---------- from boot ----------

  /** Only PCI-SCAN, or the request of a booted desk, leaves a message waiting. */
  predicate BoxWaitsForScan(d: D.Desk) {
    d.fore == -1 || d.fore == M.Scan(d.wins) || d.box == []
  }

  lemma {:induction false} LoopEmptiesBox(d: D.Desk, keys: seq<int>)
    requires M.Between(d) && BoxWaitsForScan(d)
    ensures BoxWaitsForScan(M.Loop(d, keys))
    decreases |keys|
  {
    if keys != [] && !M.Quits(keys[0]) {
      hide M.Between, D.Iterate, D.HandleKey, D.Drain;
      M.IterationKeepsBetween(d, keys[0]);
      M.IterationScans(d, keys[0]);
      LoopEmptiesBox(D.Iterate(d, keys[0]), keys[1..]);
    }
  }

  /** PCI-DEV takes keys and paints. */
  predicate DevShows(wins: seq<D.WindowInfo>) {
    Linked(wins) && D.KeyPress in wins[M.Dev(wins)].hooks && D.Paint in wins[M.Dev(wins)].hooks
  }

  /** The desk after a run of keys from boot. */
  function AfterRun(d0: D.Desk, before: seq<int>): (d: D.Desk)
    requires M.Registered(d0)
    ensures M.Between(d) && d.wins == d0.wins
  {
    M.BootRequestsScan(d0);
    M.Loop(D.Boot(d0), before)
  }

  /** Every run that ends with PCI-DEV in front ends ready. */
  lemma RunIsReady(p: Platform, found: seq<Op> -> seq<P.Device>, d0: D.Desk, before: seq<int>)
    requires Setting(p, found) && M.Registered(d0) && DevShows(d0.wins) && EveryScanOfRunFinds(found, d0, before)
    requires AfterRun(d0, before).fore == M.Dev(d0.wins)
    ensures Ready(p, found, AfterRun(d0, before))
  {
    M.BootRequestsScan(d0);
    BootIsGood(p, found, d0);
    M.ListExists(d0.wins);
    hide Setting, M.Between, D.Boot, M.Registered, Consistent, Screens, M.LinkedIn, M.Scan, M.Dev, M.List;
    LoopKeepsGood(p, found, D.Boot(d0), before);
    LoopEmptiesBox(D.Boot(d0), before);
  }

  lemma {:induction false} LoopAppend(d: D.Desk, a: seq<int>, b: seq<int>)
    requires M.Between(d) && forall key :: key in a ==> !M.Quits(key)
    ensures M.Loop(d, a + b) == M.Loop(M.Loop(d, a), b)
    decreases |a|
  {
    hide M.Between, D.Iterate, D.HandleKey;
    if a == [] {
      assert a + b == b;
    } else {
      assert a[0] in a && (a + b)[1..] == a[1..] + b;
      M.BetweenIsWellFormed(d);
      M.IterationKeepsBetween(d, a[0]);
      LoopAppend(D.Iterate(d, a[0]), a[1..], b);
    }
  }

  /** From boot, in any run whose scans find something: whatever is pressed until PCI-DEV is in front, type the
      print of v at a cell and press ENTER, with keys that are no window's shortcut. The last two requests of the
      run write v to the cell of the device under the shared index and read its page back; configuration space
      then holds v there, and the last answer, the block that is painted, shows it. */
  lemma TypedValueIsShown(p: Platform, found: seq<Op> -> seq<P.Device>, d0: D.Desk, before: seq<int>,
                          v: nat, keys: seq<int>, hw: DriverState)
    requires Setting(p, found) && M.Registered(d0) && DevShows(d0.wins) && EveryScanOfRunFinds(found, d0, before)
    requires forall key :: key in before ==> !M.Quits(key)
    requires AfterRun(d0, before).fore == M.Dev(d0.wins) && Valid(hw)
    requires P.TypesValue(Screens(found, AfterRun(d0, before)), v, keys)
    requires forall key :: key in keys + [ENTER] ==> Reaches(d0.wins, key)
    ensures v < 0x1_0000_0000
    ensures var s := Screens(found, AfterRun(d0, before));
            var ops := Issued(found, AfterRun(d0, before + (keys + [ENTER])));
            var (hw', answers) := Run(p, hw, ops);
            CellHolds(s, v, ops, hw', answers)
  {
    hide *;
    RunIsReady(p, found, d0, before);
    AppendedRun(d0, before, keys + [ENTER]);
    ReadyMeans(p, found, AfterRun(d0, before));
    ReadyValueIsShown(p, found, AfterRun(d0, before), v, keys, hw);
    var ops := Issued(found, AfterRun(d0, before + (keys + [ENTER])));
    var (hw', answers) := Run(p, hw, ops);
    HeldInCell(p, Screens(found, AfterRun(d0, before)), v, ops, hw', answers);
  }

  lemma HeldInCell(p: Platform, s: P.Pci, v: uint32, ops: seq<Op>, hw: DriverState, answers: seq<Answer>)
    requires P.Inv(p, s) && s.list != []
    requires EndsWith(ops, TypedPair(s, v)) && Shows(answers, Offset(s.cur), s.cur.mode, v)
    requires ReadBytes(s.cur.mode, View(hw.config), KeyOf(P.RequestFor(s, s.page + Offset(s.cur), v))) == v
    ensures CellHolds(s, v, ops, hw, answers)
  {
    hide *;
    PairIsIndexed(p, s, v);
    CellHoldsIf(s, v, ops, hw, answers, TypedPair(s, v), Offset(s.cur));
  }

  lemma CellHoldsIf(s: P.Pci, v: uint32, ops: seq<Op>, hw: DriverState, answers: seq<Answer>, tail: seq<Op>, o: int)
    requires o == 16 * s.cur.y + s.cur.x
    requires 0 <= s.curr < |s.list + s.past| && 0 <= s.page < 0x1000 && 0 <= s.page + 16 * s.cur.y + s.cur.x < 0x1000
    requires var d, reg := (s.list + s.past)[s.curr], s.page + 16 * s.cur.y + s.cur.x;
             && tail == [Op.Write(s.cur.mode, P.DeviceRequest(d, reg, v)), Bulk(P.DeviceRequest(d, s.page, 0))]
             && ReadBytes(s.cur.mode, View(hw.config), Key(d.bus, d.dev, d.fun, reg)) == v
    requires EndsWith(ops, tail) && Shows(answers, o, s.cur.mode, v)
    ensures CellHolds(s, v, ops, hw, answers)
  {
    hide View, ReadBytes, Shows, EndsWith, P.DeviceRequest, Key;
  }

  lemma AppendedRun(d0: D.Desk, before: seq<int>, more: seq<int>)
    requires M.Registered(d0) && forall key :: key in before ==> !M.Quits(key)
    ensures AfterRun(d0, before + more) == M.Loop(AfterRun(d0, before), more)
  {
    M.BootRequestsScan(d0);
    hide M.Registered, D.Boot, M.Between, M.Loop;
    LoopAppend(D.Boot(d0), before, more);
  }
}
