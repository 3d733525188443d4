/**
 The MEM-SPACE and IO-SPACE editors (lfdk/libmem.c, lfdk/libio.c): keyboard state machines over a
 cursor, a page address and the input buffer. They differ in the number of display modes, the number
 of address digits, and in how a page key keeps the address in range.
 */
module PageEditors {
  import opened Bits
  import opened Words
  import opened HexInput

  datatype Space = MemSpace | IoSpace

  function Modes(space: Space): int {
    match space case MemSpace => 3 case IoSpace => 2
  }

  function ShortKey(space: Space): int {
    match space case MemSpace => 'm' as int case IoSpace => 'i' as int
  }

  function AddrDigits(space: Space): int {
    match space case MemSpace => 6 case IoSpace => 2
  }

  /** phyaddr is a uint32_t tested for wrap-around; ioaddr is an int32_t clamped to 16 bits. */
  function NextPage(space: Space, addr: int): int {
    match space
    case MemSpace => if (addr + 256) % 0x1_0000_0000 > addr then (addr + 256) % 0x1_0000_0000 else addr
    case IoSpace => if addr + 256 > 0xffff then 0xff00 else addr + 256
  }

  function PrevPage(space: Space, addr: int): int {
    match space
    case MemSpace => if (addr - 256) % 0x1_0000_0000 < addr then (addr - 256) % 0x1_0000_0000 else addr
    case IoSpace => if addr - 256 < 0 then 0 else addr - 256
  }

  function LastPage(space: Space): int {
    match space case MemSpace => 0xffff_ff00 case IoSpace => 0xff00
  }

  datatype Input = NoInput | InputValue | InputAddr

  datatype Editor = Editor(cur: Cursor, input: Input, wbuf: uint32, addr: int)

  /** The write request a key may issue. */
  datatype Write = NoWrite | Write(w: Width, addr: int, buf: uint32)

  /** wbuf << 8, in 32 bits */
  function AddressFrom(wbuf: uint32): int {
    wbuf * 256 % 0x1_0000_0000
  }

  /** mem_key_press and io_key_press */
  function Press(space: Space, e: Editor, key: int): (Editor, Write) {
    match e.input
    case InputAddr =>
      if key == ENTER then (e.(input := NoInput, addr := AddressFrom(e.wbuf), wbuf := 0), NoWrite)
      else if key == KEY_BACKSPACE then (e.(wbuf := Backspace(e.wbuf)), NoWrite)
      else if IsHex(key) then (e.(wbuf := Append(AddrDigits(space), e.wbuf, Digit(key))), NoWrite)
      else (e.(wbuf := 0, input := NoInput), NoWrite)
    case InputValue =>
      if key == ENTER then (e.(input := NoInput, wbuf := 0), Write(e.cur.mode, e.addr + Offset(e.cur), e.wbuf))
      else if key == KEY_BACKSPACE then (e.(wbuf := Backspace(e.wbuf)), NoWrite)
      else if IsHex(key) then (e.(wbuf := Append(2 * Size(e.cur.mode), e.wbuf, Digit(key))), NoWrite)
      else (e.(wbuf := 0, input := NoInput), NoWrite)
    case NoInput => (Display(space, e, key), NoWrite)
  }

  function Display(space: Space, e: Editor, key: int): Editor {
    if key == KEY_UP then if e.cur.y > 0 then e.(cur := e.cur.(y := e.cur.y - 1)) else e
    else if key == KEY_DOWN then if e.cur.y < 15 then e.(cur := e.cur.(y := e.cur.y + 1)) else e
    else if key == KEY_LEFT then e.(cur := MoveLeft(e.cur))
    else if key == KEY_RIGHT then e.(cur := MoveRight(e.cur))
    else if key == KEY_NPAGE then e.(addr := NextPage(space, e.addr))
    else if key == KEY_PPAGE then e.(addr := PrevPage(space, e.addr))
    else if key == KEY_F7 then e.(cur := NextMode(e.cur, Modes(space)))
    else if key == ShortKey(space) then e.(input := InputAddr, wbuf := 0)
    else if IsHex(key) then e.(input := InputValue, wbuf := Digit(key))
    else e
  }

  datatype Event = Key(key: int) | GotFocus | LostFocus

  function Step(space: Space, e: Editor, ev: Event): (Editor, Write) {
    match ev
    case Key(key) => Press(space, e, key)
    case GotFocus => (e.(input := InputAddr, wbuf := 0), NoWrite)
    case LostFocus => (e.(input := NoInput, wbuf := 0), NoWrite)
  }

  function Start(): Editor {
    Editor(Cursor(0, 0, Byte), NoInput, 0, 0)
  }

  function After(space: Space, evs: seq<Event>): (Editor, seq<Write>) {
    if evs == [] then (Start(), [])
    else
      var (e, ws) := After(space, evs[..|evs| - 1]);
      var (e', w) := Step(space, e, evs[|evs| - 1]);
      (e', ws + [w])
  }

  // ---------- the invariant ----------

  function BufferDigits(space: Space, e: Editor): int {
    if e.input.InputAddr? then AddrDigits(space) else 2 * Size(e.cur.mode)
  }

  predicate Inv(space: Space, e: Editor) {
    && OnPage(e.cur) && (space.IoSpace? ==> !e.cur.mode.Dword?)
    && e.addr % 256 == 0 && 0 <= e.addr <= LastPage(space)
    && e.wbuf < Pow16(BufferDigits(space, e)) && (e.input.NoInput? ==> e.wbuf == 0)
  }

  /** A write is one aligned value on the current page, and its value fits its width. */
  predicate GoodWrite(space: Space, e: Editor, w: Write) {
    w.Write? ==>
      && Aligned(w.w, w.addr) && e.addr <= w.addr && w.addr + Size(w.w) <= e.addr + 256 <= LastPage(space) + 256
      && w.buf < Limit(w.w)
  }

  /** On 256-aligned addresses both page keys move one page and stop at the ends. */
  lemma PagesClamp(space: Space, addr: int)
    requires addr % 256 == 0 && 0 <= addr <= LastPage(space)
    ensures NextPage(space, addr) == if addr == LastPage(space) then addr else addr + 256
    ensures PrevPage(space, addr) == if addr == 0 then 0 else addr - 256
    ensures NextPage(space, addr) % 256 == 0 && 0 <= NextPage(space, addr) <= LastPage(space)
    ensures PrevPage(space, addr) % 256 == 0 && 0 <= PrevPage(space, addr) <= LastPage(space)
  {
    var p := addr / 256;
    assert addr == 256 * p;
    Divided(addr + 256, 256, p + 1, 0);
    Divided(addr - 256, 256, p - 1, 0);
  }

  lemma AppendFits(n: int, wbuf: uint32, d: int)
    requires IsDigitCount(n) && 0 <= d < 16
    ensures Append(n, wbuf, d) < Pow16(n)
  {
    hide And, Or;
    AppendIs(n, wbuf, d);
    Widths();
  }

  lemma AddressPage(space: Space, wbuf: uint32)
    requires wbuf < Pow16(AddrDigits(space))
    ensures AddressFrom(wbuf) == wbuf * 256 && AddressFrom(wbuf) % 256 == 0 && 0 <= AddressFrom(wbuf) <= LastPage(space)
  {
    Widths();
    Divided(wbuf * 256, 256, wbuf, 0);
  }

  lemma DisplayKeepsInv(space: Space, e: Editor, key: int)
    requires Inv(space, e) && e.input.NoInput?
    ensures Inv(space, Display(space, e, key))
  {
    Widths();
    MovesStayOnPage(e.cur, Modes(space));
    PagesClamp(space, e.addr);
    hide OnPage, NextPage, PrevPage, Pow16, MoveLeft, MoveRight;
    CursorUpDown(e.cur);
  }

  lemma CursorUpDown(c: Cursor)
    requires OnPage(c)
    ensures c.y > 0 ==> OnPage(c.(y := c.y - 1))
    ensures c.y < 15 ==> OnPage(c.(y := c.y + 1))
  {}

  lemma LimitIsDigits(w: Width)
    ensures IsDigitCount(2 * Size(w)) && Limit(w) == Pow16(2 * Size(w))
  {
    Widths();
  }

  lemma DigitCounts(space: Space, e: Editor)
    ensures IsDigitCount(BufferDigits(space, e))
  {}

  lemma NoWriteIsGood(space: Space, e: Editor)
    ensures GoodWrite(space, e, NoWrite)
  {}

  /** Input goes on with a buffer that fits, or that has become smaller. */
  lemma EditKeepsInv(space: Space, e: Editor, wbuf: uint32)
    requires Inv(space, e) && !e.input.NoInput?
    requires wbuf < Pow16(BufferDigits(space, e)) || wbuf == Backspace(e.wbuf)
    ensures Inv(space, e.(wbuf := wbuf))
  {
    BackspaceShrinks(e.wbuf);
    hide OnPage, Pow16, Backspace;
  }

  lemma BackspaceShrinks(wbuf: uint32)
    ensures Backspace(wbuf) <= wbuf
  {}

  /** Input ends, on a page in range. */
  lemma LeaveKeepsInv(space: Space, e: Editor, addr: int)
    requires Inv(space, e) && addr % 256 == 0 && 0 <= addr <= LastPage(space)
    ensures Inv(space, e.(input := NoInput, wbuf := 0, addr := addr))
  {
    hide OnPage, Pow16;
  }

  lemma EnterIsGood(space: Space, e: Editor)
    requires Inv(space, e) && !e.input.NoInput?
    ensures var (e', w) := Press(space, e, ENTER);
            Inv(space, e') && GoodWrite(space, e, w)
  {
    PageInRange(space, e);
    hide Inv, Append, Backspace, AddressFrom, Offset, LastPage;
    if e.input.InputAddr? {
      BufferIsAddress(space, e);
      AddressPage(space, e.wbuf);
      LeaveKeepsInv(space, e, AddressFrom(e.wbuf));
    } else {
      WriteIsOnPage(space, e);
      LeaveKeepsInv(space, e, e.addr);
    }
  }

  lemma PageInRange(space: Space, e: Editor)
    requires Inv(space, e)
    ensures e.addr % 256 == 0 && 0 <= e.addr <= LastPage(space)
  {
    hide OnPage, Pow16;
  }

  lemma BufferIsAddress(space: Space, e: Editor)
    requires Inv(space, e) && e.input.InputAddr?
    ensures e.wbuf < Pow16(AddrDigits(space))
  {
    hide OnPage, Pow16;
  }

  lemma WriteIsOnPage(space: Space, e: Editor)
    requires Inv(space, e) && e.input.InputValue?
    ensures GoodWrite(space, e, Write(e.cur.mode, e.addr + Offset(e.cur), e.wbuf))
  {
    LimitIsDigits(e.cur.mode);
    hide Pow16, OnPage, Offset, Aligned, LastPage, Limit;
    OffsetAligned(e.cur);
    PageIsAligned(e.cur.mode, e.addr, Offset(e.cur));
  }

  lemma PageIsAligned(w: Width, page: int, o: int)
    requires page % 256 == 0 && Aligned(w, o)
    ensures Aligned(w, page + o)
  {
    var p := page / 256;
    assert page == 256 * p;
    var h := o / 2;
    var q := o / 4;
    match w
    case Byte =>
    case Word => Divided(page + o, 2, 128 * p + h, 0);
    case Dword => Divided(page + o, 4, 64 * p + q, 0);
  }

  lemma PressKeepsInv(space: Space, e: Editor, key: int)
    requires Inv(space, e)
    ensures var (e', w) := Press(space, e, key);
            Inv(space, e') && GoodWrite(space, e, w)
  {
    hide Inv, GoodWrite, Display, Append, Backspace, AddressFrom, Offset, Digit;
    NoWriteIsGood(space, e);
    if e.input.NoInput? {
      DisplayKeepsInv(space, e, key);
    } else if key == ENTER {
      EnterIsGood(space, e);
    } else if key == KEY_BACKSPACE {
      EditKeepsInv(space, e, Backspace(e.wbuf));
    } else if IsHex(key) {
      DigitCounts(space, e);
      AppendFits(BufferDigits(space, e), e.wbuf, Digit(key));
      EditKeepsInv(space, e, Append(BufferDigits(space, e), e.wbuf, Digit(key)));
    } else {
      PageInRange(space, e);
      LeaveKeepsInv(space, e, e.addr);
    }
  }

  /** Over every sequence of keys and focus changes: the cursor stays on the page and aligned, pages
      are 256-aligned and in range, the buffer fits, and every write is a good one. */
  lemma {:induction false} EveryRunKeepsInv(space: Space, evs: seq<Event>)
    ensures Inv(space, After(space, evs).0)
    ensures forall i :: 0 <= i < |evs| ==> |After(space, evs).1| == |evs|
                                           && GoodWrite(space, After(space, evs[..i]).0, After(space, evs).1[i])
  {
    Widths();
    if evs != [] {
      var prefix, ev := evs[..|evs| - 1], evs[|evs| - 1];
      EveryRunKeepsInv(space, prefix);
      var (e, ws) := After(space, prefix);
      if ev.Key? {
        PressKeepsInv(space, e, ev.key);
      }
      hide GoodWrite, Press, Inv;
      forall i | 0 <= i < |evs|
        ensures |After(space, evs).1| == |evs| && GoodWrite(space, After(space, evs[..i]).0, After(space, evs).1[i])
      {
        assert |prefix| > 0 ==> |ws| == |prefix| by {
          if |prefix| > 0 {
            assert 0 <= 0 < |prefix|;
          }
        }
        if i < |prefix| {
          assert evs[..i] == prefix[..i];
        } else {
          assert evs[..i] == prefix;
        }
      }
    }
  }

  // ---------- where the keys lead ----------

  /** UP and DOWN change the row, LEFT and RIGHT the column, F7 the width, PPAGE and NPAGE the page; nothing
      moves over an edge, and no such key leaves the display. */
  lemma DisplayMoves(space: Space, e: Editor)
    requires Inv(space, e) && e.input.NoInput?
    ensures Display(space, e, KEY_UP) == if e.cur.y == 0 then e else e.(cur := Cursor(e.cur.x, e.cur.y - 1, e.cur.mode))
    ensures Display(space, e, KEY_DOWN)
            == if e.cur.y == 15 then e else e.(cur := Cursor(e.cur.x, e.cur.y + 1, e.cur.mode))
    ensures Display(space, e, KEY_LEFT)
            == if e.cur.x == 0 then e else e.(cur := Cursor(e.cur.x - Size(e.cur.mode), e.cur.y, e.cur.mode))
    ensures Display(space, e, KEY_RIGHT)
            == if e.cur.x == 16 - Size(e.cur.mode) then e
               else e.(cur := Cursor(e.cur.x + Size(e.cur.mode), e.cur.y, e.cur.mode))
    ensures Display(space, e, KEY_NPAGE) == if e.addr == LastPage(space) then e else e.(addr := e.addr + 256)
    ensures Display(space, e, KEY_PPAGE) == if e.addr == 0 then e else e.(addr := e.addr - 256)
    ensures var c := Display(space, e, KEY_F7).cur;
            && Display(space, e, KEY_F7) == e.(cur := c) && c.y == e.cur.y && Aligned(c.mode, c.x)
            && c.x <= e.cur.x < c.x + Size(c.mode)
            && Size(c.mode) == if e.cur.mode.Dword? || (space.IoSpace? && e.cur.mode.Word?) then 1
                               else 2 * Size(e.cur.mode)
  {
    hide MoveLeft, MoveRight, NextMode, NextPage, PrevPage, Pow16, Aligned, Offset;
    SidewaysMoves(e.cur);
    NextModeKeepsPlace(e.cur, Modes(space));
    PagesClamp(space, e.addr);
  }

  // ---------- typing an address ----------

  /** With the focus, or after the editor's own shortcut key, typing the print of p, of six digits for memory and
      two for ports, and ENTER shows the page that starts at 256 * p. */
  lemma TypedAddressIsPage(space: Space, e: Editor, ev: Event, p: nat, digits: string)
    requires ev == GotFocus || (ev == Key(if space.MemSpace? then 0x6d else 0x69) && e.input.NoInput?)
    requires p < (if space.MemSpace? then 0x100_0000 else 0x100) && (digits == LOWER_CASE || digits == UPPER_CASE)
    ensures var keys := Codes(Print(p, if space.MemSpace? then 6 else 2, digits));
            var asked := Step(space, e, ev).0;
            Press(space, PressAll(space, asked, keys), ENTER)
            == (e.(input := NoInput, wbuf := 0, addr := 256 * p), NoWrite)
  {
    var asked := e.(input := InputAddr, wbuf := 0);
    AsksForAddress(space, e, ev);
    AddressIsTyped(space, asked, p, digits);
    hide PressAll, Append, Backspace, Print, Codes, Step;
    Divided(p * 256, 0x1_0000_0000, 0, p * 256);
  }

  lemma AsksForAddress(space: Space, e: Editor, ev: Event)
    requires ev == GotFocus || (ev == Key(if space.MemSpace? then 0x6d else 0x69) && e.input.NoInput?)
    ensures Step(space, e, ev).0 == e.(input := InputAddr, wbuf := 0)
  {
    hide Append;
  }

  lemma AddressIsTyped(space: Space, e: Editor, p: nat, digits: string)
    requires e.input.InputAddr? && e.wbuf == 0 && (digits == LOWER_CASE || digits == UPPER_CASE)
    requires p < (if space.MemSpace? then 0x100_0000 else 0x100)
    ensures PressAll(space, e, Codes(Print(p, if space.MemSpace? then 6 else 2, digits))) == e.(wbuf := p)
  {
    var n := AddrDigits(space);
    Widths();
    assert n == BufferDigits(space, e) && p < Pow16(n) && n == if space.MemSpace? then 6 else 2;
    hide *;
    PrintIsTyping(p, n, digits);
    TypingFillsBuffer(space, e, Codes(Print(p, n, digits)));
    TypedFromEmpty(n, p);
  }

  /** Losing the focus drops what was typed; neither losing nor gaining it moves the cursor or the page, or
      writes. */
  lemma FocusKeepsPlace(space: Space, e: Editor)
    ensures Step(space, e, LostFocus) == (Editor(e.cur, NoInput, 0, e.addr), NoWrite)
    ensures Step(space, e, GotFocus) == (Editor(e.cur, InputAddr, 0, e.addr), NoWrite)
  {}

  // ---------- typing a value ----------

  function PressAll(space: Space, e: Editor, keys: seq<int>): Editor
    decreases |keys|
  {
    if keys == [] then e else PressAll(space, Press(space, e, keys[0]).0, keys[1..])
  }

  lemma {:induction false} TypingFillsBuffer(space: Space, e: Editor, keys: seq<int>)
    requires !e.input.NoInput? && EditKeys(keys)
    ensures IsDigitCount(BufferDigits(space, e))
    ensures PressAll(space, e, keys) == e.(wbuf := BufferAfter(BufferDigits(space, e), e.wbuf, StrokesOf(keys)))
    decreases |keys|
  {
    LimitIsDigits(e.cur.mode);
    if keys != [] {
      hide Append, Backspace;
      assert keys[0] in keys;
      var e1 := Press(space, e, keys[0]).0;
      TypingFillsBuffer(space, e1, keys[1..]);
      assert StrokesOf(keys)[1..] == StrokesOf(keys[1..]);
    }
  }

  /** Digits and backspaces typed at a cell, then ENTER: the value written is that of the bounded
      digit queue. */
  lemma EnterWritesQueue(space: Space, e: Editor, key: int, keys: seq<int>)
    requires e.input.NoInput? && IsHex(key) && EditKeys(keys)
    ensures var n := 2 * Size(e.cur.mode);
            && IsDigitCount(n)
            && var (e', w) := Press(space, PressAll(space, e, [key] + keys), ENTER);
               && e' == e.(wbuf := 0)
               && w == Write(e.cur.mode, e.addr + Offset(e.cur), Held(n, QueueAfter(n, [Digit(key)], StrokesOf(keys))))
  {
    LimitIsDigits(e.cur.mode);
    var n := 2 * Size(e.cur.mode);
    var e1 := e.(input := InputValue, wbuf := Digit(key));
    assert ([key] + keys)[1..] == keys;
    assert Press(space, e, key).0 == e1;
    TypingFillsBuffer(space, e1, keys);
    BufferIsQueue(n, [Digit(key)], StrokesOf(keys));
    assert [Digit(key)][..0] == [] && Value([Digit(key)]) == Digit(key);
  }

  /** Any other key drops what was typed: nothing is written, and the editor is as it was before. */
  lemma OtherKeyCancels(space: Space, e: Editor, key: int, keys: seq<int>, other: int)
    requires e.input.NoInput? && e.wbuf == 0 && IsHex(key) && EditKeys(keys)
    requires !IsHex(other) && other != KEY_BACKSPACE && other != ENTER
    ensures Press(space, PressAll(space, e, [key] + keys), other) == (e, NoWrite)
  {
    var e1 := e.(input := InputValue, wbuf := Digit(key));
    assert ([key] + keys)[1..] == keys;
    assert Press(space, e, key).0 == e1;
    TypingFillsBuffer(space, e1, keys);
    hide BufferAfter, StrokesOf;
  }

  // ---------- the screens, updated in place ----------

  class Screen {
    const space: Space
    var x: int
    var y: int
    var displayMode: Width
    var input: Input
    var wbuf: uint32
    var addr: int

    ghost function State(): Editor
      reads this
    {
      Editor(Cursor(x, y, displayMode), input, wbuf, addr)
    }

    constructor (space: Space)
      ensures this.space == space && State() == Start()
    {
      this.space := space;
      x, y, displayMode, input, wbuf, addr := 0, 0, Byte, NoInput, 0, 0;
    }

    method GetFocus()
      modifies this
      ensures State() == Step(space, old(State()), GotFocus).0
    {
      input := InputAddr;
      wbuf := 0;
    }

    method LoseFocus()
      modifies this
      ensures State() == Step(space, old(State()), LostFocus).0
    {
      input := NoInput;
      wbuf := 0;
    }

    method AppendDigit(n: int, key: int)
      requires IsDigitCount(n) && IsHex(key)
      modifies this`wbuf
      ensures wbuf == Append(n, old(wbuf), Digit(key))
    {
      hide And, Or;
      AppendIs(n, wbuf, Digit(key));
      var shifted: nat := wbuf * 16 % 0x1_0000_0000;
      shifted := And(shifted, DigitMask(n));
      wbuf := Or(shifted, Digit(key));
    }

    /** mem_key_press, io_key_press */
    method KeyPress(key: int) returns (write: Write)
      modifies this
      ensures (State(), write) == Press(space, old(State()), key)
    {
      hide Append;
      write := NoWrite;
      LimitIsDigits(displayMode);
      if input == NoInput {
        DisplayKey(key);
      } else if key == ENTER {
        if input == InputAddr {
          addr := AddressFrom(wbuf);
        } else {
          write := Write(displayMode, addr + y * 16 + x, wbuf);
        }
        input := NoInput;
        wbuf := 0;
      } else if key == KEY_BACKSPACE {
        wbuf := wbuf / 16;
      } else if IsHex(key) {
        AppendDigit(if input == InputAddr then AddrDigits(space) else 2 * Size(displayMode), key);
      } else {
        wbuf := 0;
        input := NoInput;
      }
    }

    method DisplayKey(key: int)
      requires input == NoInput
      modifies this
      ensures State() == Display(space, old(State()), key)
    {
      if key == KEY_UP {
        if y > 0 { y := y - 1; }
      } else if key == KEY_DOWN {
        if y < 15 { y := y + 1; }
      } else if key == KEY_LEFT {
        x := x - Size(displayMode);
        if x < 0 { x := 0; }
      } else if key == KEY_RIGHT {
        x := x + Size(displayMode);
        if x >= 16 { x := x - Size(displayMode); }
      } else if key == KEY_NPAGE {
        addr := NextPage(space, addr);
      } else if key == KEY_PPAGE {
        addr := PrevPage(space, addr);
      } else if key == KEY_F7 {
        displayMode := match displayMode
                       case Byte => Word
                       case Word => if Modes(space) == 2 then Byte else Dword
                       case Dword => Byte;
        x := x - x % Size(displayMode);
      } else if key == ShortKey(space) {
        input := InputAddr;
        wbuf := 0;
      } else if IsHex(key) {
        input := InputValue;
        wbuf := Digit(key);
      }
    }
  }
}
