/**
 What the hex editors share: the cursor on a 16 by 16 byte page, and the input buffer wbuf, into
 which digits are shifted from the right under a mask.
 */
module HexInput {
  import opened Bits
  import opened Words

  // ncurses key codes
  const KEY_DOWN: int := 258
  const KEY_UP: int := 259
  const KEY_LEFT: int := 260
  const KEY_RIGHT: int := 261
  const KEY_BACKSPACE: int := 263
  const KEY_F7: int := 271
  const KEY_NPAGE: int := 338
  const KEY_PPAGE: int := 339
  const ENTER: int := 0x0a

  // ---------- the cursor ----------

  datatype Cursor = Cursor(x: int, y: int, mode: Width)

  /** The cell under the cursor is a whole, aligned value of the page. */
  predicate OnPage(c: Cursor) {
    0 <= c.x && c.x + Size(c.mode) <= 16 && Aligned(c.mode, c.x) && 0 <= c.y <= 15
  }

  function MoveLeft(c: Cursor): Cursor {
    var x := c.x - Size(c.mode);
    c.(x := if x < 0 then 0 else x)
  }

  function MoveRight(c: Cursor): Cursor {
    var x := c.x + Size(c.mode);
    if x >= 16 then c else c.(x := x)
  }

  /** F7: the next of the first three (or, for IO-SPACE, two) modes, x realigned to it. */
  function NextMode(c: Cursor, modes: int): Cursor {
    var mode := match c.mode
                case Byte => Word
                case Word => if modes == 2 then Byte else Dword
                case Dword => Byte;
    c.(mode := mode, x := c.x - c.x % Size(mode))
  }

  function Offset(c: Cursor): int {
    c.y * 16 + c.x
  }

  lemma MovesStayOnPage(c: Cursor, modes: int)
    requires OnPage(c)
    ensures OnPage(MoveLeft(c)) && OnPage(MoveRight(c)) && OnPage(NextMode(c, modes))
  {
    assert c.x in {0, 1, 2, 3, 4, 5, 6, 7, 8, 9, 10, 11, 12, 13, 14, 15};
  }

  /** LEFT and RIGHT move by one cell and stop at the ends of the row; what one does the other undoes. */
  lemma SidewaysMoves(c: Cursor)
    requires OnPage(c)
    ensures MoveLeft(c) == if c.x == 0 then c else c.(x := c.x - Size(c.mode))
    ensures MoveRight(c) == if c.x == 16 - Size(c.mode) then c else c.(x := c.x + Size(c.mode))
    ensures c.x < 16 - Size(c.mode) ==> Offset(MoveRight(c)) == Offset(c) + Size(c.mode) && MoveLeft(MoveRight(c)) == c
    ensures c.x > 0 ==> Offset(MoveLeft(c)) == Offset(c) - Size(c.mode) && MoveRight(MoveLeft(c)) == c
  {
    assert c.x in {0, 1, 2, 3, 4, 5, 6, 7, 8, 9, 10, 11, 12, 13, 14, 15};
  }

  /** F7 goes from bytes to words to dwords, if there are three modes, and back to bytes; the cursor stays on the
      byte it was on, at the start of the cell that holds it. */
  lemma NextModeKeepsPlace(c: Cursor, modes: int)
    requires OnPage(c) && 2 <= modes <= 3 && (modes == 2 ==> c.mode != Dword)
    ensures var c' := NextMode(c, modes);
            && Size(c'.mode) == (if Size(c.mode) == (if modes == 2 then 2 else 4) then 1 else 2 * Size(c.mode))
            && c'.y == c.y && Aligned(c'.mode, c'.x) && c'.x <= c.x < c'.x + Size(c'.mode)
  {
    assert c.x in {0, 1, 2, 3, 4, 5, 6, 7, 8, 9, 10, 11, 12, 13, 14, 15};
  }

  /** The cell in column x and row y is byte 16 * y + x of the page, and every cell has its own. */
  lemma CellIsByte(c: Cursor, b: Cursor)
    requires OnPage(c) && OnPage(b)
    ensures Offset(c) == 16 * c.y + c.x
    ensures Offset(c) == Offset(b) <==> c.x == b.x && c.y == b.y
  {}

  lemma OffsetAligned(c: Cursor)
    requires OnPage(c)
    ensures 0 <= Offset(c) <= 256 - Size(c.mode) && Aligned(c.mode, Offset(c))
  {
    match c.mode
    case Byte =>
    case Word => Divided(Offset(c), 2, c.y * 8 + c.x / 2, 0);
    case Dword => Divided(Offset(c), 4, c.y * 4 + c.x / 4, 0);
  }

  // ---------- digits ----------

  /** isxdigit; keys past the characters are no digits. */
  predicate IsHex(key: int) {
    '0' as int <= key <= '9' as int || 'A' as int <= key <= 'F' as int || 'a' as int <= key <= 'f' as int
  }

  function Digit(key: int): (d: int)
    requires IsHex(key)
    ensures 0 <= d < 16
  {
    if key <= '9' as int then key - 0x30
    else if key > 'F' as int then key - 0x60 + 9
    else key - 0x40 + 9
  }

  /** The mask that keeps n digits after a shift, n in 2, 4, 6, 8. */
  function DigitMask(n: int): uint32 {
    match n case 2 => 0xf0 case 4 => 0xfff0 case 6 => 0xff_fff0 case _ => 0xffff_fff0
  }

  /** The n - 1 low digits of a number. */
  function LastDigits(n: int, v: nat): nat {
    match n case 2 => v % 0x10 case 4 => v % 0x1000 case 6 => v % 0x10_0000 case _ => v % 0x1000_0000
  }

  predicate IsDigitCount(n: int) {
    n == 2 || n == 4 || n == 6 || n == 8
  }

  /** wbuf <<= 4; wbuf &= mask; wbuf |= digit. With 8 digits the sources have no mask, and the low bits
      are zero anyway. */
  function Append(n: int, wbuf: uint32, d: int): uint32
    requires IsDigitCount(n) && 0 <= d < 16
  {
    AppendIs(n, wbuf, d);
    Or(And(wbuf * 16 % 0x1_0000_0000, DigitMask(n)), d)
  }

  /** wbuf >>= 4 */
  function Backspace(wbuf: uint32): uint32 {
    wbuf / 16
  }

  function Pow16(n: nat): (p: nat)
    ensures p > 0
  {
    if n == 0 then 1 else 16 * Pow16(n - 1)
  }

  /** A shifted buffer under its mask keeps the last n - 1 digits. */
  lemma AppendIs(n: int, wbuf: uint32, d: int)
    requires IsDigitCount(n) && 0 <= d < 16
    ensures Or(And(wbuf * 16 % 0x1_0000_0000, DigitMask(n)), d) == 16 * (LastDigits(n, wbuf)) + d
    ensures 16 * (LastDigits(n, wbuf)) + d < 0x1_0000_0000
  {
    var w, h := wbuf % 0x1000_0000, wbuf / 0x1000_0000;
    LowDigits(n, h, w);
    hide And, Or, DigitMask, LastDigits;
    Divided(wbuf * 16, 0x1_0000_0000, h, 16 * w);
    MaskShifted(n, w);
    OrNibble(LastDigits(n, w), d);
  }

  lemma LowDigits(n: int, h: nat, w: nat)
    requires IsDigitCount(n)
    ensures LastDigits(n, 0x1000_0000 * h + w) == LastDigits(n, w) <= w
  {
    match n
    case 2 => Divided(0x1000_0000 * h + w, 0x10, 0x100_0000 * h + w / 0x10, w % 0x10);
    case 4 => Divided(0x1000_0000 * h + w, 0x1000, 0x1_0000 * h + w / 0x1000, w % 0x1000);
    case 6 => Divided(0x1000_0000 * h + w, 0x10_0000, 0x100 * h + w / 0x10_0000, w % 0x10_0000);
    case _ => Divided(0x1000_0000 * h + w, 0x1000_0000, h + w / 0x1000_0000, w % 0x1000_0000);
  }

  lemma MaskShifted(n: int, w: nat)
    requires IsDigitCount(n) && w < 0x1000_0000
    ensures And(16 * w, DigitMask(n)) == 16 * (LastDigits(n, w))
  {
    NibblePowers();
    hide And, Cat, Pow2;
    match n
    case 2 =>
      AndSmallMask(4, w / 0x10, w % 0x10);
      CatNibbles(w / 0x10, w % 0x10);
      CatNibbles(0, 0xf);
      CatNibbles(0, w % 0x10);
      AndShifted(w, 0xf);
    case 4 =>
      And0fff(w / 0x1000, w % 0x1000);
      AndShifted(w, 0xfff);
    case 6 =>
      AndSmallMask(20, w / 0x10_0000, w % 0x10_0000);
      CatTwenty(w / 0x10_0000, w % 0x10_0000);
      CatTwenty(0, 0xf_ffff);
      CatTwenty(0, w % 0x10_0000);
      AndShifted(w, 0xf_ffff);
    case _ =>
      AndOnes(28, w);
      AndShifted(w, 0xfff_ffff);
  }

  lemma NibblePowers()
    ensures Pow2(4) == 0x10 && Pow2(12) == 0x1000 && Pow2(20) == 0x10_0000 && Pow2(28) == 0x1000_0000
  {
    assert Pow2(8) == 0x100 && Pow2(16) == 0x1_0000 && Pow2(24) == 0x100_0000;
  }

  lemma CatNibbles(hi: nat, lo: nat)
    requires lo < 16
    ensures Cat(4, hi, lo) == 16 * hi + lo
  {
    hide Cat;
    Cat4(0, hi, lo);
    CatOne(hi, lo / 16);
  }

  lemma CatTwenty(hi: nat, lo: nat)
    requires lo < 0x10_0000
    ensures Cat(20, hi, lo) == 0x10_0000 * hi + lo
  {
    hide Cat;
    Cat8(12, hi, lo);
    CatTwelve(hi, lo / 256);
  }

  lemma AndShifted(w: nat, m: nat)
    ensures And(16 * w, 16 * m) == 16 * And(w, m)
  {
    hide And, Cat;
    AndCat(4, w, 0, m, 0);
    CatNibbles(w, 0);
    CatNibbles(m, 0);
    AndZero(0);
    CatNibbles(And(w, m), 0);
  }

  lemma OrNibble(h: nat, d: nat)
    requires d < 16
    ensures Or(16 * h, d) == 16 * h + d
  {
    hide Or, Cat;
    OrCat(4, h, 0, 0, d);
    OrZero(h);
    OrZero(d);
    CatNibbles(h, 0);
    CatNibbles(0, d);
    CatNibbles(h, d);
  }

  lemma Widths()
    ensures Pow16(1) == 0x10 && Pow16(3) == 0x1000 && Pow16(5) == 0x10_0000 && Pow16(7) == 0x1000_0000
    ensures Pow16(2) == 0x100 && Pow16(4) == 0x1_0000 && Pow16(6) == 0x100_0000 && Pow16(8) == 0x1_0000_0000
  {}

  // ---------- the buffer is a bounded queue of digits ----------

  datatype Stroke = Push(d: int) | Erase

  predicate Digits(q: seq<int>) {
    forall i :: 0 <= i < |q| ==> 0 <= q[i] < 16
  }

  predicate Strokes(ss: seq<Stroke>) {
    forall s :: s in ss && s.Push? ==> 0 <= s.d < 16
  }

  function Value(q: seq<int>): nat
    requires Digits(q)
  {
    if q == [] then 0 else 16 * Value(q[..|q| - 1]) + q[|q| - 1]
  }

  /** A digit enters at the right; when n digits are there, the oldest leaves. */
  function Queued(n: int, q: seq<int>, s: Stroke): (q': seq<int>)
    requires IsDigitCount(n) && Digits(q) && |q| <= n && (s.Push? ==> 0 <= s.d < 16)
    ensures Digits(q') && |q'| <= n
  {
    match s
    case Push(d) => (if |q| == n then q[1..] else q) + [d]
    case Erase => if q == [] then q else q[..|q| - 1]
  }

  function QueueAfter(n: int, q: seq<int>, ss: seq<Stroke>): (q': seq<int>)
    requires IsDigitCount(n) && Digits(q) && |q| <= n && Strokes(ss)
    ensures Digits(q') && |q'| <= n
    decreases |ss|
  {
    if ss == [] then q else QueueAfter(n, Queued(n, q, ss[0]), ss[1..])
  }

  function BufferAfter(n: int, wbuf: uint32, ss: seq<Stroke>): uint32
    requires IsDigitCount(n) && Strokes(ss)
    decreases |ss|
  {
    if ss == [] then wbuf
    else if ss[0].Push? then BufferAfter(n, Append(n, wbuf, ss[0].d), ss[1..])
    else BufferAfter(n, Backspace(wbuf), ss[1..])
  }

  lemma {:induction false} ValueBound(q: seq<int>)
    requires Digits(q)
    ensures Value(q) < Pow16(|q|)
  {
    if q != [] {
      ValueBound(q[..|q| - 1]);
    }
  }

  lemma {:induction false} OldestDigit(q: seq<int>)
    requires Digits(q) && q != []
    ensures Value(q) == q[0] * Pow16(|q| - 1) + Value(q[1..])
  {
    var r := q[..|q| - 1];
    if |q| == 1 {
      assert r == [] && q[1..] == [];
      assert Value(q) == 16 * Value(r) + q[0];
    } else {
      OldestDigit(r);
      assert q[1..][..|q| - 2] == r[1..];
      assert Pow16(|q| - 1) == 16 * Pow16(|q| - 2);
      assert q[0] * Pow16(|q| - 1) == 16 * (q[0] * Pow16(|q| - 2));
    }
  }

  lemma ValueSnoc(q: seq<int>, d: int)
    requires Digits(q) && 0 <= d < 16
    ensures Digits(q + [d]) && Value(q + [d]) == 16 * Value(q) + d
  {
    assert (q + [d])[..|q|] == q;
  }

  lemma {:induction false} Pow16Grows(k: nat, n: nat)
    requires k <= n
    ensures Pow16(k) <= Pow16(n)
  {
    if k < n {
      Pow16Grows(k, n - 1);
    }
  }

  /** Value drops the oldest digit of a full queue exactly as the remainder does. */
  lemma KeepLast(n: int, q: seq<int>)
    requires IsDigitCount(n) && Digits(q) && |q| <= n
    ensures LastDigits(n, Value(q)) == Value(if |q| == n then q[1..] else q)
  {
    Widths();
    if |q| == n {
      OldestDigit(q);
      ValueBound(q[1..]);
      LastDigitsOf(n, q[0], Value(q[1..]));
    } else {
      ValueBound(q);
      Pow16Grows(|q|, n - 1);
      LastDigitsOf(n, 0, Value(q));
    }
  }

  lemma LastDigitsOf(n: int, hi: nat, lo: nat)
    requires IsDigitCount(n) && lo < Pow16(n - 1)
    ensures LastDigits(n, hi * Pow16(n - 1) + lo) == lo
  {
    Widths();
    hide Pow16;
    match n
    case 2 => Divided(hi * 0x10 + lo, 0x10, hi, lo);
    case 4 => Divided(hi * 0x1000 + lo, 0x1000, hi, lo);
    case 6 => Divided(hi * 0x10_0000 + lo, 0x10_0000, hi, lo);
    case _ => Divided(hi * 0x1000_0000 + lo, 0x1000_0000, hi, lo);
  }

  lemma StrokeIsQueued(n: int, q: seq<int>, s: Stroke)
    requires IsDigitCount(n) && Digits(q) && |q| <= n && (s.Push? ==> 0 <= s.d < 16)
    ensures Value(q) < 0x1_0000_0000
    ensures Value(Queued(n, q, s)) == if s.Push? then Append(n, Value(q), s.d) else Backspace(Value(q))
  {
    FitsBuffer(n, q);
    match s
    case Push(d) =>
      var kept := if |q| == n then q[1..] else q;
      hide And, Or, Value, LastDigits;
      KeepLast(n, q);
      AppendIs(n, Value(q), d);
      ValueSnoc(kept, d);
    case Erase =>
  }

  lemma FitsBuffer(n: int, q: seq<int>)
    requires IsDigitCount(n) && Digits(q) && |q| <= n
    ensures Value(q) < 0x1_0000_0000
  {
    ValueBound(q);
    Pow16Grows(|q|, 8);
    Widths();
  }

  /** The value of a queue, as what a 32-bit buffer holds. */
  function Held(n: int, q: seq<int>): uint32
    requires IsDigitCount(n) && Digits(q) && |q| <= n
  {
    FitsBuffer(n, q);
    Value(q)
  }

  /** For every sequence of digits and backspaces, wbuf is the value of the bounded digit queue. */
  lemma {:induction false} BufferIsQueue(n: int, q: seq<int>, ss: seq<Stroke>)
    requires IsDigitCount(n) && Digits(q) && |q| <= n && Strokes(ss)
    ensures Value(q) < 0x1_0000_0000
    ensures BufferAfter(n, Value(q), ss) == Value(QueueAfter(n, q, ss))
    decreases |ss|
  {
    FitsBuffer(n, q);
    if ss != [] {
      assert ss[0] in ss;
      StrokeIsQueued(n, q, ss[0]);
      hide Append, Backspace, Queued, Value;
      BufferIsQueue(n, Queued(n, q, ss[0]), ss[1..]);
    }
  }

  lemma BufferHolds(n: int, q: seq<int>, ss: seq<Stroke>)
    requires IsDigitCount(n) && Digits(q) && |q| <= n && Strokes(ss)
    ensures BufferAfter(n, Held(n, q), ss) == Held(n, QueueAfter(n, q, ss))
  {
    hide BufferAfter, QueueAfter, Value;
    BufferIsQueue(n, q, ss);
  }

  lemma OneDigit(n: int, d: int)
    requires IsDigitCount(n) && 0 <= d < 16
    ensures Digits([d]) && n >= 1 && Held(n, [d]) == d
  {
    assert [d][..0] == [] && Value([]) == 0;
    assert Value([d]) == 16 * Value([d][..0]) + [d][0];
  }

  // ---------- typing a printed number ----------

  /** The n hex digits of v, most significant first. */
  function HexDigits(v: nat, n: nat): (q: seq<int>)
    ensures |q| == n && Digits(q)
  {
    if n == 0 then [] else HexDigits(v / 16, n - 1) + [v % 16]
  }

  lemma {:induction false} PrintedValue(v: nat, n: nat)
    requires v < Pow16(n)
    ensures Value(HexDigits(v, n)) == v
  {
    if n > 0 {
      var q, r := v / 16, v % 16;
      assert v == 16 * q + r;
      hide Value;
      PrintedValue(q, n - 1);
      ValueSnoc(HexDigits(q, n - 1), r);
    }
  }

  function Typing(q: seq<int>): (ss: seq<Stroke>)
    requires Digits(q)
    ensures |ss| == |q| && Strokes(ss) && forall i :: 0 <= i < |q| ==> ss[i] == Push(q[i])
  {
    seq(|q|, i requires 0 <= i < |q| => Push(q[i]))
  }

  lemma PushUnfolds(n: int, q: seq<int>, more: seq<int>)
    requires IsDigitCount(n) && Digits(q) && Digits(more) && |q| < n && more != []
    ensures QueueAfter(n, q, Typing(more)) == QueueAfter(n, q + [more[0]], Typing(more[1..]))
  {
    var ss := Typing(more);
    assert ss[1..] == Typing(more[1..]);
    assert Queued(n, q, ss[0]) == q + [more[0]];
  }

  lemma Regroup(q: seq<int>, more: seq<int>)
    requires more != []
    ensures q + [more[0]] + more[1..] == q + more
    ensures Digits(q) && Digits(more) ==> Digits(q + [more[0]]) && Digits(more[1..])
  {}

  lemma {:induction false} TypingFills(n: int, q: seq<int>, more: seq<int>)
    requires IsDigitCount(n) && Digits(q) && Digits(more) && |q| + |more| <= n
    ensures QueueAfter(n, q, Typing(more)) == q + more
    decreases |more|
  {
    if more == [] {
      assert q + more == q;
    } else {
      hide *;
      Regroup(q, more);
      PushUnfolds(n, q, more);
      TypingFills(n, q + [more[0]], more[1..]);
    }
  }

  /** The first digit starts the buffer, the others are appended: typing the fixed-width print of v
      leaves v. */
  lemma TypedPrintIsValue(n: int, v: nat)
    requires IsDigitCount(n) && v < Pow16(n)
    ensures var q := HexDigits(v, n);
            BufferAfter(n, q[0], Typing(q[1..])) == v
  {
    var q := HexDigits(v, n);
    assert [q[0]] + q[1..] == q;
    TypingFills(n, [q[0]], q[1..]);
    BufferIsQueue(n, [q[0]], Typing(q[1..]));
    PrintedValue(v, n);
    assert [q[0]][..0] == [] && Value([q[0]]) == q[0];
  }

  /** From an empty buffer all of them are appended. */
  lemma TypedFromEmpty(n: int, v: nat)
    requires IsDigitCount(n) && v < Pow16(n)
    ensures BufferAfter(n, 0, Typing(HexDigits(v, n))) == v
  {
    var q := HexDigits(v, n);
    assert [] + q == q;
    TypingFills(n, [], q);
    BufferIsQueue(n, [], Typing(q));
    PrintedValue(v, n);
  }

  // ---------- the keys ----------

  function StrokeOf(key: int): Stroke
    requires IsHex(key) || key == KEY_BACKSPACE
  {
    if key == KEY_BACKSPACE then Erase else Push(Digit(key))
  }

  predicate EditKeys(keys: seq<int>) {
    forall k :: k in keys ==> IsHex(k) || k == KEY_BACKSPACE
  }

  function StrokesOf(keys: seq<int>): (ss: seq<Stroke>)
    requires EditKeys(keys)
    ensures |ss| == |keys| && Strokes(ss) && forall i :: 0 <= i < |keys| ==> ss[i] == StrokeOf(keys[i])
  {
    seq(|keys|, i requires 0 <= i < |keys| => StrokeOf(keys[i]))
  }

  const LOWER_CASE := "0123456789abcdef"
  const UPPER_CASE := "0123456789ABCDEF"

  /** The fixed-width hex print of v. */
  function Print(v: nat, n: nat, digits: string): (text: string)
    requires |digits| == 16
    ensures |text| == n
  {
    if n == 0 then "" else Print(v / 16, n - 1, digits) + [digits[v % 16]]
  }

  /** The characters of a print, in either letter case, are keys for its digits. */
  lemma {:induction false} PrintTypes(v: nat, n: nat, digits: string)
    requires digits == LOWER_CASE || digits == UPPER_CASE
    ensures forall i :: 0 <= i < n ==>
              IsHex(Print(v, n, digits)[i] as int) && Digit(Print(v, n, digits)[i] as int) == HexDigits(v, n)[i]
  {
    if n > 0 {
      PrintTypes(v / 16, n - 1, digits);
      CharacterTypes(digits, v % 16);
      hide IsHex, Digit;
    }
  }

  lemma CharacterTypes(digits: string, d: int)
    requires (digits == LOWER_CASE || digits == UPPER_CASE) && 0 <= d < 16
    ensures IsHex(digits[d] as int) && Digit(digits[d] as int) == d
  {
    assert d in {0, 1, 2, 3, 4, 5, 6, 7, 8, 9, 10, 11, 12, 13, 14, 15};
  }

  /** The keys of a text. */
  function Codes(text: string): (keys: seq<int>)
    ensures |keys| == |text| && forall i :: 0 <= i < |text| ==> keys[i] == text[i] as int
  {
    seq(|text|, i requires 0 <= i < |text| => text[i] as int)
  }

  lemma PrintIsTyping(v: nat, n: nat, digits: string)
    requires digits == LOWER_CASE || digits == UPPER_CASE
    ensures var keys := Codes(Print(v, n, digits));
            EditKeys(keys) && StrokesOf(keys) == Typing(HexDigits(v, n))
  {
    PrintTypes(v, n, digits);
    var keys := Codes(Print(v, n, digits));
    hide Digit, Print, HexDigits;
    assert forall i :: 0 <= i < |keys| ==> IsHex(keys[i]) && keys[i] != KEY_BACKSPACE;
  }
}
