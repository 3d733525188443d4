/**
 The PCI-DEV editor and the PCI-LIST screen (lfdk/lib_pci_dev.c, lfdk/lib_pci_list.c), which share
 curr_index and the device list, and the driver requests PCI-DEV issues.
 */
module PciScreens {
  import opened Bits
  import opened Words
  import opened AddressCodec
  import opened ConfigStore
  import opened HexInput
  import opened PcixDriver

  /** The fields of PCIData that name a function; phyBase is 0 for a device without MMIO. */
  datatype Device = Device(bus: uint8, dev: uint8, fun: uint8, phyBase: uint64)

  /** list is the live part of lfdd_pci_list, past what earlier, longer scans left behind it. */
  datatype Pci = Pci(list: seq<Device>, past: seq<Device>, curr: int, cur: Cursor, page: int, wbuf: uint32, input: bool)

  const RECORDS_PER_PAGE: int := 20

  function Start(): Pci {
    Pci([], [], 0, Cursor(0, 0, Byte), 0, 0, false)
  }

  function TableEntry(table: seq<Device>, i: int): Device {
    if 0 <= i < |table| then table[i] else Device(0, 0, 0, 0)
  }

  /** lfdd_pci_list[curr_index]; the array is zeroed past what was ever scanned. */
  function Selected(s: Pci): Device {
    TableEntry(s.list + s.past, s.curr)
  }

  /** The request both WritePCIValue and PrintPCIScreen fill in; reg is a uint16_t. */
  function RequestFor(s: Pci, reg: int, buf: uint32): Request {
    var d := Selected(s);
    Request(d.bus, d.dev, d.fun, reg % 0x1_0000, d.phyBase, buf)
  }

  function WriteRequest(s: Pci): Op {
    Op.Write(s.cur.mode, RequestFor(s, s.page + Offset(s.cur), s.wbuf))
  }

  function PaintRequest(s: Pci): Op {
    Bulk(RequestFor(s, s.page, 0))
  }

  // ---------- keys ----------

  /** pci_dev_key_press */
  function DevKey(s: Pci, key: int): (Pci, seq<Op>) {
    if !s.input then (DevDisplay(s, key), [])
    else if key == ENTER then (s.(input := false, wbuf := 0), [WriteRequest(s)])
    else if key == KEY_BACKSPACE then (s.(wbuf := Backspace(s.wbuf)), [])
    else if IsHex(key) then (s.(wbuf := Append(2 * Size(s.cur.mode), s.wbuf, Digit(key))), [])
    else (s.(wbuf := 0, input := false), [])
  }

  function DevDisplay(s: Pci, key: int): Pci {
    if key == KEY_UP then
      if s.cur.y > 0 then s.(cur := s.cur.(y := s.cur.y - 1))
      else if Selected(s).phyBase != 0 && s.page >= MASSBUF then s.(page := s.page - MASSBUF)
      else s
    else if key == KEY_DOWN then
      if s.cur.y < 15 then s.(cur := s.cur.(y := s.cur.y + 1))
      else if Selected(s).phyBase != 0 && s.page + MASSBUF < 0x1000 then s.(page := s.page + MASSBUF)
      else s
    else if key == KEY_LEFT then s.(cur := MoveLeft(s.cur))
    else if key == KEY_RIGHT then s.(cur := MoveRight(s.cur))
    else if key == KEY_NPAGE then if s.curr < |s.list| - 1 then s.(curr := s.curr + 1, page := 0) else s
    else if key == KEY_PPAGE then if s.curr > 0 then s.(curr := s.curr - 1, page := 0) else s
    else if key == KEY_F7 then s.(cur := NextMode(s.cur, 3))
    else if IsHex(key) then s.(input := true, wbuf := Digit(key))
    else s
  }

  /** pci_list_key_press; the message it posts on ENTER is the window manager's business. */
  function ListKey(s: Pci, key: int): Pci {
    var n := |s.list|;
    if key == KEY_UP then s.(curr := if s.curr - 1 < 0 then 0 else s.curr - 1)
    else if key == KEY_DOWN then s.(curr := if s.curr + 1 >= n then n - 1 else s.curr + 1)
    else if key == KEY_NPAGE then
      s.(curr := if s.curr + RECORDS_PER_PAGE >= n then n - 1 else s.curr + RECORDS_PER_PAGE)
    else if key == KEY_PPAGE then s.(curr := if s.curr - RECORDS_PER_PAGE < 0 then 0 else s.curr - RECORDS_PER_PAGE)
    else s
  }

  /** pci_dev_lost_focus; the display mode stays. */
  function DevLostFocus(s: Pci): Pci {
    s.(cur := s.cur.(x := 0, y := 0), input := false, wbuf := 0, page := 0)
  }

  /** What a scan does to the list; curr_index stays. */
  function Rescan(s: Pci, found: seq<Device>): Pci {
    var table := s.list + s.past;
    s.(list := found, past := if |found| <= |table| then table[|found|..] else [])
  }

  // ---------- the invariant ----------

  /** The request for register 0 of a function. */
  function FirstRegister(d: Device): Request {
    Request(d.bus, d.dev, d.fun, 0, d.phyBase, 0)
  }

  /** What the scan delivers: buses below 255, and no MMIO base but the one the hardware decodes, and that
      only where the driver's guard lets register 0 through. */
  predicate GoodDevice(p: Platform, d: Device) {
    && d.bus < 255 && d.dev < 32 && d.fun < 8
    && (d.phyBase == 0 || (d.phyBase == p.ecam && !Refused(p, AlignDown(Addr32(FirstRegister(d))))))
  }

  predicate GoodList(p: Platform, list: seq<Device>) {
    forall i :: 0 <= i < |list| ==> GoodDevice(p, list[i])
  }

  /** PCI-DEV as it is whenever another window has the focus. */
  predicate Idle(s: Pci) {
    s.cur.x == 0 && s.cur.y == 0 && !s.input && s.wbuf == 0 && s.page == 0
  }

  /** Without an MMIO base only the first page is shown. */
  predicate Inv(p: Platform, s: Pci) {
    && GoodList(p, s.list) && GoodList(p, s.past)
    && (if s.list == [] then s.curr == 0 && s.past == [] else 0 <= s.curr < |s.list + s.past|)
    && OnPage(s.cur) && s.page % MASSBUF == 0 && 0 <= s.page <= 0xf00
    && (s.page > 0 ==> Selected(s).phyBase != 0)
    && s.wbuf < Limit(s.cur.mode) && (!s.input ==> s.wbuf == 0)
  }

  lemma DevKeyKeepsInv(p: Platform, s: Pci, key: int)
    requires Inv(p, s)
    ensures Inv(p, DevKey(s, key).0) && DevKey(s, key).0.list == s.list
  {
    hide OnPage, MoveLeft, MoveRight, NextMode, Append, GoodList;
    if s.input {
      if IsHex(key) {
        DigitsFit(s.cur.mode, s.wbuf, Digit(key));
      }
    } else {
      MovesStayOnPage(s.cur, 3);
      UpDown(s.cur);
      SameMode(s.cur);
      PageSteps(s.page);
    }
  }

  lemma UpDown(c: Cursor)
    requires OnPage(c)
    ensures c.y > 0 ==> OnPage(c.(y := c.y - 1))
    ensures c.y < 15 ==> OnPage(c.(y := c.y + 1))
    ensures OnPage(c.(x := 0, y := 0))
  {}

  lemma SameMode(c: Cursor)
    ensures MoveLeft(c).mode == c.mode && MoveRight(c).mode == c.mode
  {}

  lemma PageSteps(page: int)
    requires page % MASSBUF == 0
    ensures (page + MASSBUF) % MASSBUF == 0 && (page - MASSBUF) % MASSBUF == 0
  {}

  lemma DigitsFit(w: Width, wbuf: uint32, d: int)
    requires 0 <= d < 16
    ensures IsDigitCount(2 * Size(w)) && Append(2 * Size(w), wbuf, d) < Limit(w)
  {
    hide And, Or;
    Widths();
    AppendIs(2 * Size(w), wbuf, d);
  }

  lemma ListKeyKeepsInv(p: Platform, s: Pci, key: int)
    requires Inv(p, s) && s.list != [] && Idle(s)
    ensures Inv(p, ListKey(s, key)) && ListKey(s, key).list == s.list && Idle(ListKey(s, key))
    ensures s.curr < |s.list| ==> ListKey(s, key).curr < |s.list|
  {
    hide OnPage, GoodList;
  }

  /** With an empty list a key takes the shared index below zero; with any other list no key does. */
  lemma IndexStaysIff(s: Pci)
    requires 0 <= s.curr
    ensures (forall key :: 0 <= ListKey(s, key).curr) <==> s.list != []
  {
    if s.list == [] {
      assert ListKey(s, KEY_DOWN).curr == -1;
    }
  }

  lemma LostFocusKeepsInv(p: Platform, s: Pci)
    requires Inv(p, s)
    ensures Inv(p, DevLostFocus(s)) && Idle(DevLostFocus(s)) && DevLostFocus(s).cur.mode == s.cur.mode
    ensures var s' := DevLostFocus(s); s'.list == s.list && s'.past == s.past && s'.curr == s.curr
  {
    hide OnPage, GoodList;
    UpDown(s.cur);
  }

  /** A scan may come at any time while PCI-DEV is not in front, and may find more or fewer functions. */
  lemma RescanKeepsInv(p: Platform, s: Pci, found: seq<Device>)
    requires Inv(p, s) && Idle(s) && GoodList(p, found) && found != []
    ensures Inv(p, Rescan(s, found)) && Idle(Rescan(s, found))
  {
    hide OnPage, GoodDevice;
  }

  // ---------- where the keys lead ----------

  /** The device under the shared index: in the list, or among what a longer scan left behind it. */
  lemma SelectedIsIndexed(p: Platform, s: Pci)
    requires Inv(p, s) && s.list != []
    ensures 0 <= s.curr < |s.list + s.past| && Selected(s) == (s.list + s.past)[s.curr]
    ensures s.curr < |s.list| ==> Selected(s) == s.list[s.curr]
  {
    hide OnPage, GoodList;
  }

  /** UP and DOWN change the row, and past an edge the page of a device with an MMIO base. */
  lemma DevRows(p: Platform, s: Pci)
    requires Inv(p, s) && !s.input && s.list != []
    ensures 0 <= s.curr < |s.list + s.past|
    ensures var c, mmio := s.cur, (s.list + s.past)[s.curr].phyBase != 0;
            DevDisplay(s, KEY_UP) == if c.y > 0 then s.(cur := Cursor(c.x, c.y - 1, c.mode))
                                     else if mmio && s.page > 0 then s.(page := s.page - 0x100) else s
    ensures var c, mmio := s.cur, (s.list + s.past)[s.curr].phyBase != 0;
            DevDisplay(s, KEY_DOWN) == if c.y < 15 then s.(cur := Cursor(c.x, c.y + 1, c.mode))
                                       else if mmio && s.page < 0xf00 then s.(page := s.page + 0x100) else s
  {
    SelectedIsIndexed(p, s);
    PageIsWhole(s.page);
    hide Selected, GoodList;
  }

  lemma PageIsWhole(page: int)
    requires page % MASSBUF == 0 && 0 <= page <= 0xf00
    ensures page > 0 <==> page >= MASSBUF
    ensures page < 0xf00 <==> page + MASSBUF < 0x1000
  {
    Divided(0xf00 - page, MASSBUF, 0xf - page / MASSBUF, 0);
  }

  /** LEFT and RIGHT change the column, F7 the width. */
  lemma DevColumns(p: Platform, s: Pci)
    requires Inv(p, s) && !s.input
    ensures DevDisplay(s, KEY_LEFT)
            == if s.cur.x == 0 then s else s.(cur := Cursor(s.cur.x - Size(s.cur.mode), s.cur.y, s.cur.mode))
    ensures DevDisplay(s, KEY_RIGHT)
            == if s.cur.x == 16 - Size(s.cur.mode) then s
               else s.(cur := Cursor(s.cur.x + Size(s.cur.mode), s.cur.y, s.cur.mode))
    ensures var c := DevDisplay(s, KEY_F7).cur;
            && DevDisplay(s, KEY_F7) == s.(cur := c) && c.y == s.cur.y && Aligned(c.mode, c.x)
            && c.x <= s.cur.x < c.x + Size(c.mode)
            && Size(c.mode) == if s.cur.mode.Dword? then 1 else 2 * Size(s.cur.mode)
  {
    hide OnPage, MoveLeft, MoveRight, NextMode, GoodList, Selected, Aligned, Offset, Limit;
    SidewaysMoves(s.cur);
    NextModeKeepsPlace(s.cur, 3);
  }

  /** NPAGE and PPAGE go to the next and the previous device of the list, on its first page. */
  lemma DevSteps(s: Pci)
    requires !s.input && 0 <= s.curr < |s.list|
    ensures DevDisplay(s, KEY_NPAGE) == if s.curr == |s.list| - 1 then s else s.(curr := s.curr + 1, page := 0)
    ensures DevDisplay(s, KEY_PPAGE) == if s.curr == 0 then s else s.(curr := s.curr - 1, page := 0)
  {
    hide MoveLeft, MoveRight, NextMode, Selected;
  }

  function Min(a: int, b: int): int { if a < b then a else b }
  function Max(a: int, b: int): int { if a < b then b else a }

  /** The list keys go one device or 20 devices back and forth and stop at the ends of the list. */
  lemma ListSteps(s: Pci)
    requires 0 <= s.curr < |s.list|
    ensures ListKey(s, KEY_UP) == s.(curr := Max(0, s.curr - 1))
    ensures ListKey(s, KEY_DOWN) == s.(curr := Min(|s.list| - 1, s.curr + 1))
    ensures ListKey(s, KEY_PPAGE) == s.(curr := Max(0, s.curr - 20))
    ensures ListKey(s, KEY_NPAGE) == s.(curr := Min(|s.list| - 1, s.curr + 20))
    ensures forall key :: key !in {KEY_UP, KEY_DOWN, KEY_PPAGE, KEY_NPAGE} ==> ListKey(s, key) == s
  {}

  // ---------- what the requests name ----------

  /** The request for a register of a device. */
  function DeviceRequest(d: Device, reg: uint16, buf: uint32): Request {
    Request(d.bus, d.dev, d.fun, reg, d.phyBase, buf)
  }

  /** What is written goes to the device under the shared index, at the byte 16 * y + x of its page; what is
      painted is that page of the same device. */
  lemma RequestsNameSelected(p: Platform, s: Pci)
    requires Inv(p, s) && s.list != []
    ensures 0 <= s.curr < |s.list + s.past| && 0 <= s.page + 16 * s.cur.y + s.cur.x < 0x1000
    ensures var d := (s.list + s.past)[s.curr];
            && WriteRequest(s) == Op.Write(s.cur.mode, DeviceRequest(d, s.page + 16 * s.cur.y + s.cur.x, s.wbuf))
            && PaintRequest(s) == Bulk(DeviceRequest(d, s.page, 0))
            && (s.curr < |s.list| ==> d == s.list[s.curr])
  {
    SelectedIsIndexed(p, s);
    CellRegister(p, s);
    hide Selected, Inv, Offset;
    RequestOf(s, s.page + Offset(s.cur), s.wbuf);
    RequestOf(s, s.page, 0);
  }

  lemma CellRegister(p: Platform, s: Pci)
    requires Inv(p, s)
    ensures s.page + Offset(s.cur) == s.page + 16 * s.cur.y + s.cur.x
    ensures 0 <= s.page + 16 * s.cur.y + s.cur.x < 0x1000 && 0 <= s.page < 0x1000
  {
    hide GoodList, Selected, Limit, Aligned;
  }

  /** A scan overwrites the front of the array and leaves the rest of it, the shared index, and everything else of
      the screens as they were. */
  lemma RescanOverwrites(s: Pci, found: seq<Device>, i: nat)
    ensures var s' := Rescan(s, found);
            && s'.list == found && s'.(list := s.list, past := s.past) == s
            && TableEntry(s'.list + s'.past, i) == if i < |found| then found[i] else TableEntry(s.list + s.past, i)
  {
    var table := s.list + s.past;
    if |found| <= |table| {
      assert forall k :: |found| <= k < |table| ==> (found + table[|found|..])[k] == table[k];
    }
  }

  // ---------- the requests meet the driver's preconditions ----------

  lemma SelectedIsGood(p: Platform, s: Pci)
    requires Inv(p, s)
    ensures GoodDevice(p, Selected(s))
  {
    hide Refused, AlignDown, Addr32, OnPage;
  }

  /** If register 0 of an enumerated function passes the guard, so does every register of it: its windows
      lie higher, and none of them is the last one below 4 GiB. */
  lemma NotRefused(p: Platform, d: Device, req: Request)
    requires GoodPlatform(p) && GoodDevice(p, d) && InRange(req) && req.phyBase == d.phyBase != 0
    requires (req.bus, req.dev, req.fun) == (d.bus, d.dev, d.fun)
    ensures !Refused(p, AlignDown(Addr32(req)))
  {
    hide *;
    var first := FirstRegister(d);
    FirstPasses(p, d, req);
    FirstAddress(p, d);
    RefusedIff(p, first);
    RefusedIff(p, req);
    HigherPasses(p.ecam + KeyOf(first), req.reg, p.ramTop);
  }

  lemma FirstPasses(p: Platform, d: Device, req: Request)
    requires GoodPlatform(p) && GoodDevice(p, d) && InRange(req) && req.phyBase == d.phyBase != 0
    requires (req.bus, req.dev, req.fun) == (d.bus, d.dev, d.fun)
    ensures var first := FirstRegister(d);
            && InRange(first) && first.phyBase == req.phyBase == p.ecam <= 0xf000_0000
            && !Refused(p, AlignDown(Addr32(first)))
            && KeyOf(req) == KeyOf(first) + req.reg && 0 <= req.reg < 0x1000
    ensures d.bus < 255 && d.dev < 32 && d.fun < 8
  {
    hide Refused, AlignDown, Addr32;
  }

  lemma HigherPasses(a: int, reg: int, ramTop: int)
    requires a % MASSBUF == 0 && 0 <= reg < 0x1000 && a - a % MASSBUF + MASSBUF > ramTop
    ensures a + reg - (a + reg) % MASSBUF + MASSBUF > ramTop
  {
    Divided(a + reg, MASSBUF, a / MASSBUF + reg / MASSBUF, reg % MASSBUF);
  }

  lemma FirstAddress(p: Platform, d: Device)
    requires GoodPlatform(p) && d.bus < 255 && d.dev < 32 && d.fun < 8
    ensures KeyOf(FirstRegister(d)) < 0xff0_0000 - 0xfff
    ensures (p.ecam + KeyOf(FirstRegister(d))) % MASSBUF == 0
  {
    var h := d.bus * 0x1000 + d.dev * 0x80 + d.fun * 0x10;
    Divided(p.ecam + KeyOf(FirstRegister(d)), MASSBUF, p.ecam / MASSBUF + h, 0);
  }

  lemma DeviceRequestIsGood(p: Platform, d: Device, reg: uint16, buf: uint32)
    requires GoodPlatform(p) && GoodDevice(p, d) && reg < (if d.phyBase == 0 then 0x100 else 0x1000)
    ensures GoodRequest(p, Request(d.bus, d.dev, d.fun, reg, d.phyBase, buf))
  {
    hide Refused, AlignDown, Addr32, GoodPlatform;
    if d.phyBase != 0 {
      NotRefused(p, d, Request(d.bus, d.dev, d.fun, reg, d.phyBase, buf));
    }
  }

  lemma RegisterFits(p: Platform, s: Pci, reg: int)
    requires Inv(p, s) && s.page <= reg < s.page + MASSBUF
    ensures 0 <= reg < if Selected(s).phyBase == 0 then 0x100 else 0x1000
  {
    hide OnPage, GoodList, Selected;
  }

  lemma RequestOf(s: Pci, reg: uint16, buf: uint32)
    ensures var d := Selected(s);
            RequestFor(s, reg, buf) == Request(d.bus, d.dev, d.fun, reg, d.phyBase, buf)
  {
    hide Selected;
  }

  lemma GoodReg(p: Platform, s: Pci, reg: int, buf: uint32)
    requires GoodPlatform(p) && Inv(p, s) && s.page <= reg < s.page + MASSBUF
    ensures GoodRequest(p, RequestFor(s, reg, buf)) && RequestFor(s, reg, buf).reg == reg
  {
    hide *;
    SelectedIsGood(p, s);
    RegisterFits(p, s, reg);
    RequestOf(s, reg, buf);
    DeviceRequestIsGood(p, Selected(s), reg, buf);
  }

  lemma WriteIsGood(p: Platform, s: Pci)
    requires GoodPlatform(p) && Inv(p, s)
    ensures GoodOp(p, WriteRequest(s))
  {
    OffsetAligned(s.cur);
    GoodReg(p, s, s.page + Offset(s.cur), s.wbuf);
    hide GoodRequest, RequestFor, Offset;
    PageAligned(s.cur.mode, s.page, Offset(s.cur));
  }

  lemma PageAligned(w: Width, page: int, o: int)
    requires page % MASSBUF == 0 && Aligned(w, o)
    ensures Aligned(w, page + o)
  {
    var p, h, q := page / MASSBUF, o / 2, o / 4;
    assert page == MASSBUF * p;
    match w
    case Byte =>
    case Word => Divided(page + o, 2, 128 * p + h, 0);
    case Dword => Divided(page + o, 4, 64 * p + q, 0);
  }

  lemma PaintIsGood(p: Platform, s: Pci)
    requires GoodPlatform(p) && Inv(p, s)
    ensures GoodOp(p, PaintRequest(s))
  {
    hide GoodRequest;
    GoodReg(p, s, s.page, 0);
  }

  // ---------- typing a value ----------

  function DevKeys(s: Pci, keys: seq<int>): Pci
    decreases |keys|
  {
    if keys == [] then s else DevKeys(DevKey(s, keys[0]).0, keys[1..])
  }

  lemma {:induction false} DevTyping(s: Pci, keys: seq<int>, q: seq<int>)
    requires s.input && Digits(q) && |keys| == |q|
    requires forall i :: 0 <= i < |q| ==> IsHex(keys[i]) && Digit(keys[i]) == q[i]
    ensures IsDigitCount(2 * Size(s.cur.mode))
    ensures DevKeys(s, keys) == s.(wbuf := BufferAfter(2 * Size(s.cur.mode), s.wbuf, Typing(q)))
    decreases |keys|
  {
    if keys != [] {
      hide Append;
      DevTyping(DevKey(s, keys[0]).0, keys[1..], q[1..]);
      assert Typing(q)[1..] == Typing(q[1..]);
    }
  }

  /** Digits and backspaces typed at a cell, then ENTER: one write, of the value of the bounded digit queue. */
  lemma DevEnterWritesQueue(s: Pci, key: int, keys: seq<int>)
    requires !s.input && IsHex(key) && EditKeys(keys)
    ensures var n := 2 * Size(s.cur.mode);
            && IsDigitCount(n)
            && var v := Held(n, QueueAfter(n, [Digit(key)], StrokesOf(keys)));
               DevKey(DevKeys(s, [key] + keys), ENTER)
               == (s.(wbuf := 0), [Op.Write(s.cur.mode, RequestFor(s, s.page + Offset(s.cur), v))])
  {
    hide *;
    ModeDigits(s.cur.mode);
    var n := 2 * Size(s.cur.mode);
    var s1 := s.(input := true, wbuf := Digit(key));
    FirstDigit(s, key);
    KeysAfterFirst(s, key, keys);
    EditingFillsBuffer(s1, keys);
    OneDigit(n, Digit(key));
    BufferHolds(n, [Digit(key)], StrokesOf(keys));
    EnterWrites(s, Held(n, QueueAfter(n, [Digit(key)], StrokesOf(keys))));
  }

  lemma KeysAfterFirst(s: Pci, key: int, keys: seq<int>)
    ensures DevKeys(s, [key] + keys) == DevKeys(DevKey(s, key).0, keys)
  {
    assert ([key] + keys)[1..] == keys;
    hide DevKey;
  }

  lemma EnterWrites(s: Pci, v: uint32)
    requires !s.input
    ensures DevKey(s.(input := true, wbuf := v), ENTER)
            == (s.(wbuf := 0), [Op.Write(s.cur.mode, RequestFor(s, s.page + Offset(s.cur), v))])
  {
    hide Offset, TableEntry;
  }

  lemma {:induction false} EditingFillsBuffer(s: Pci, keys: seq<int>)
    requires s.input && EditKeys(keys)
    ensures IsDigitCount(2 * Size(s.cur.mode))
    ensures DevKeys(s, keys) == s.(wbuf := BufferAfter(2 * Size(s.cur.mode), s.wbuf, StrokesOf(keys)))
    decreases |keys|
  {
    ModeDigits(s.cur.mode);
    if keys != [] {
      hide Append, Backspace, DevDisplay, WriteRequest;
      assert keys[0] in keys;
      EditingFillsBuffer(DevKey(s, keys[0]).0, keys[1..]);
      assert StrokesOf(keys)[1..] == StrokesOf(keys[1..]);
    }
  }

  /** Any other key drops what was typed, and nothing is written. */
  lemma OtherKeyCancels(s: Pci, key: int, keys: seq<int>, other: int)
    requires !s.input && s.wbuf == 0 && IsHex(key) && EditKeys(keys)
    requires !IsHex(other) && other != KEY_BACKSPACE && other != ENTER
    ensures DevKey(DevKeys(s, [key] + keys), other) == (s, [])
  {
    var s1 := s.(input := true, wbuf := Digit(key));
    FirstDigit(s, key);
    assert ([key] + keys)[1..] == keys;
    EditingFillsBuffer(s1, keys);
    hide BufferAfter, Append, DevDisplay, WriteRequest, StrokesOf;
  }

  lemma ModeDigits(w: Width)
    ensures IsDigitCount(2 * Size(w)) && Limit(w) == Pow16(2 * Size(w))
  {
    Widths();
  }

  lemma FirstDigit(s: Pci, key: int)
    requires !s.input && IsHex(key)
    ensures DevKey(s, key).0 == s.(input := true, wbuf := Digit(key))
  {}

  /** The keys are the fixed-width hex print of v, in either letter case, and the screen is not in input
      mode. */
  predicate TypesValue(s: Pci, v: nat, keys: seq<int>) {
    && !s.input && v < Limit(s.cur.mode) && |keys| == 2 * Size(s.cur.mode)
    && forall i :: 0 <= i < |keys| ==> IsHex(keys[i]) && Digit(keys[i]) == HexDigits(v, 2 * Size(s.cur.mode))[i]
  }

  /** The characters of the print are such keys. */
  lemma PrintTypesValue(s: Pci, v: nat, digits: string)
    requires !s.input && v < Limit(s.cur.mode) && (digits == LOWER_CASE || digits == UPPER_CASE)
    ensures TypesValue(s, v, Codes(Print(v, 2 * Size(s.cur.mode), digits)))
  {
    PrintTypes(v, 2 * Size(s.cur.mode), digits);
    hide Print, Digit, HexDigits, IsHex;
  }

  /** Typing the fixed-width print of v at a cell, in either letter case, and ENTER issues exactly one
      write, of v, at that cell. */
  lemma TypedValueIsWritten(s: Pci, v: nat, keys: seq<int>)
    requires TypesValue(s, v, keys)
    ensures var (s', ops) := DevKey(DevKeys(s, keys), ENTER);
            && s' == s.(wbuf := 0)
            && ops == [Op.Write(s.cur.mode, RequestFor(s, s.page + Offset(s.cur), v))]
  {
    TypedBuffer(s, v, keys);
    hide DevKeys, HexDigits, RequestFor, DevDisplay, Append;
  }

  lemma TypedBuffer(s: Pci, v: nat, keys: seq<int>)
    requires TypesValue(s, v, keys)
    ensures DevKeys(s, keys) == s.(input := true, wbuf := v)
  {
    var n := 2 * Size(s.cur.mode);
    ModeDigits(s.cur.mode);
    var q := HexDigits(v, n);
    var s1 := s.(input := true, wbuf := q[0]);
    FirstDigit(s, keys[0]);
    hide Pow16, HexDigits, BufferAfter, DevDisplay, DevKey, Append, Digit, Size, IsHex;
    TypedPrintIsValue(n, v);
    DevTyping(s1, keys[1..], q[1..]);
  }

  // ---------- the page of the list that is drawn ----------

  /** page_start and page_end of PrintPCILScreen. */
  function ListPage(curr: int, n: int): (int, int) {
    var start := curr / RECORDS_PER_PAGE * RECORDS_PER_PAGE;
    var end := start + RECORDS_PER_PAGE - 1;
    (start, if end >= n then n - 1 else end)
  }

  /** The drawn page lies inside the list, and the selected device is on it exactly if it is in the list. */
  lemma SelectedIsDrawn(p: Platform, s: Pci)
    requires Inv(p, s) && s.list != []
    ensures var (start, end) := ListPage(s.curr, |s.list|);
            && 0 <= start <= s.curr && end < |s.list| && end - start < RECORDS_PER_PAGE && start % RECORDS_PER_PAGE == 0
            && (s.curr <= end <==> s.curr < |s.list|)
  {
    hide OnPage, GoodList;
  }

  // ---------- the screens, updated in place ----------

  class Screens {
    var list: seq<Device>
    var past: seq<Device>
    var currIndex: int
    var x: int
    var y: int
    var displayMode: Width
    var buffPage: int
    var wbuf: uint32
    var input: bool

    ghost function State(): Pci
      reads this
    {
      Pci(list, past, currIndex, Cursor(x, y, displayMode), buffPage, wbuf, input)
    }

    constructor ()
      ensures State() == Start()
    {
      list, past := [], [];
      currIndex, x, y, displayMode, buffPage, wbuf, input := 0, 0, 0, Byte, 0, 0, false;
    }

    method Request(reg: int, buf: uint32) returns (req: Request)
      ensures req == RequestFor(State(), reg, buf)
    {
      var d := TableEntry(list + past, currIndex);
      req := AddressCodec.Request(d.bus, d.dev, d.fun, reg % 0x1_0000, d.phyBase, buf);
    }

    /** WritePCIValue, on the driver itself. */
    method WritePciValue(driver: Driver) returns (op: Op)
      modifies driver
      ensures op == WriteRequest(State())
      ensures driver.State() == Exec(driver.platform, old(driver.State()), op).0
    {
      hide WriteResult;
      var req := Request(buffPage + y * 16 + x, wbuf);
      op := Op.Write(displayMode, req);
      driver.Write(displayMode, req);
    }

    /** pci_dev_key_press */
    method DevKeyPress(key: int, driver: Driver) returns (ops: seq<Op>)
      modifies this, driver
      ensures (State(), ops) == DevKey(old(State()), key)
      ensures driver.State() == Run(driver.platform, old(driver.State()), ops).0
    {
      hide Append, Exec;
      ops := [];
      if !input {
        DevDisplayKey(key);
      } else if key == ENTER {
        var op := WritePciValue(driver);
        ops := [op];
        assert ops[1..] == [];
        input := false;
        wbuf := 0;
      } else if key == KEY_BACKSPACE {
        wbuf := wbuf / 16;
      } else if IsHex(key) {
        DigitsFit(displayMode, wbuf, Digit(key));
        wbuf := Append(2 * Size(displayMode), wbuf, Digit(key));
      } else {
        wbuf := 0;
        input := false;
      }
    }

    method DevDisplayKey(key: int)
      requires !input
      modifies this
      ensures State() == DevDisplay(old(State()), key)
    {
      var mmio := TableEntry(list + past, currIndex).phyBase != 0;
      if key == KEY_UP {
        if y > 0 {
          y := y - 1;
        } else if mmio && buffPage >= MASSBUF {
          buffPage := buffPage - MASSBUF;
        }
      } else if key == KEY_DOWN {
        if y < 15 {
          y := y + 1;
        } else if mmio && buffPage + MASSBUF < 0x1000 {
          buffPage := buffPage + MASSBUF;
        }
      } else if key == KEY_LEFT {
        x := x - Size(displayMode);
        if x < 0 { x := 0; }
      } else if key == KEY_RIGHT {
        x := x + Size(displayMode);
        if x >= 16 { x := x - Size(displayMode); }
      } else if key == KEY_NPAGE {
        if currIndex < |list| - 1 {
          currIndex := currIndex + 1;
          buffPage := 0;
        }
      } else if key == KEY_PPAGE {
        if currIndex > 0 {
          currIndex := currIndex - 1;
          buffPage := 0;
        }
      } else if key == KEY_F7 {
        displayMode := match displayMode case Byte => Word case Word => Dword case Dword => Byte;
        x := x - x % Size(displayMode);
      } else if IsHex(key) {
        input := true;
        wbuf := Digit(key);
      }
    }

    /** pci_dev_lost_focus */
    method DevLoseFocus()
      modifies this
      ensures State() == DevLostFocus(old(State()))
    {
      x, y, input, wbuf, buffPage := 0, 0, false, 0, 0;
    }

    /** ScanPCIDevice overwrites the front of the array and sets pci_list_len. */
    method TakeScan(found: seq<Device>)
      modifies this
      ensures State() == Rescan(old(State()), found)
    {
      var table := list + past;
      list := found;
      past := if |found| <= |table| then table[|found|..] else [];
    }

    /** pci_list_key_press */
    method ListKeyPress(key: int)
      modifies this
      ensures State() == ListKey(old(State()), key)
    {
      if key == KEY_UP {
        currIndex := currIndex - 1;
        if currIndex < 0 { currIndex := 0; }
      } else if key == KEY_DOWN {
        currIndex := currIndex + 1;
        if currIndex >= |list| { currIndex := |list| - 1; }
      } else if key == KEY_NPAGE {
        currIndex := currIndex + RECORDS_PER_PAGE;
        if currIndex >= |list| { currIndex := |list| - 1; }
      } else if key == KEY_PPAGE {
        currIndex := currIndex - RECORDS_PER_PAGE;
        if currIndex < 0 { currIndex := 0; }
      }
    }
  }
}
