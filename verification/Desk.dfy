/**
 The window manager of lfdk/lfdk.c as pure steps: the pool, the LIFO message box, the foreground
 handle, and the history of callbacks. The posts that callbacks make are those of lfdk's
 modules; get_focus and lost_focus callbacks post nothing.
 */
module Desk {

  datatype WinState = NotStarted | Inited | Started | Background | Foreground | Destroyed | Exited

  datatype Hook = Init | StartWin | PostStartWin | LostFocus | GetFocus | Paint | KeyPress | DestroyWin | ModuleExit

  /** st_window_info: hooks are the callbacks whose pointer is not NULL. */
  datatype WindowInfo = WindowInfo(name: string, shortKey: int, hooks: set<Hook>)

  datatype Message =
    | NeedFocus(sender: int)
    | ReleaseFocus(sender: int)
    | XferControl(sender: int, target: int)
    | DestroyWindow(sender: int)

  /** One callback made: arg is the key for KeyPress, and for Paint it is 1 if the window was
      foreground when painted, 0 otherwise. */
  datatype Call = Call(hook: Hook, handle: int, arg: int)

  const POOL_SIZE: int := 32
  const MSG_SIZE: int := 32
  const ENTER: int := 10

  datatype Desk = Desk(wins: seq<WindowInfo>, states: seq<WinState>, box: seq<Message>, fore: int, calls: seq<Call>)

  predicate WellFormed(d: Desk) {
    |d.states| == |d.wins| <= POOL_SIZE && |d.box| <= MSG_SIZE && -1 <= d.fore < |d.wins|
  }

  predicate IsHandle(d: Desk, h: int) {
    0 <= h < |d.wins|
  }

  /** The handles in a message index the pool; the handler does not check. */
  predicate InRange(n: nat, m: Message) {
    0 <= m.sender < n && (m.XferControl? ==> 0 <= m.target < n)
  }

  predicate AllInRange(n: nat, ms: seq<Message>) {
    forall m :: m in ms ==> InRange(n, m)
  }

  // ---------- posting ----------

  /** First window of that name, -1 if there is none. */
  function Find(wins: seq<WindowInfo>, name: string): (h: int)
    ensures -1 <= h < |wins|
    ensures h >= 0 ==> wins[h].name == name
    ensures h == -1 ==> forall i :: 0 <= i < |wins| ==> wins[i].name != name
    ensures forall i :: 0 <= i < h ==> wins[i].name != name
  {
    FindFrom(wins, name, 0)
  }

  function FindFrom(wins: seq<WindowInfo>, name: string, i: nat): (h: int)
    requires i <= |wins|
    ensures h == -1 || i <= h < |wins|
    ensures h >= 0 ==> wins[h].name == name && forall j :: i <= j < h ==> wins[j].name != name
    ensures h == -1 ==> forall j :: i <= j < |wins| ==> wins[j].name != name
    decreases |wins| - i
  {
    if i == |wins| then -1 else if wins[i].name == name then i else FindFrom(wins, name, i + 1)
  }

  /** A full box drops the message. */
  function Post(d: Desk, m: Message): Desk {
    if |d.box| >= MSG_SIZE then d else d.(box := d.box + [m])
  }

  // ---------- callbacks ----------

  /** What lfdk's modules post from a callback. */
  function Posts(d: Desk, h: int, hook: Hook, arg: int): Desk
    requires IsHandle(d, h)
  {
    var name := d.wins[h].name;
    if name == "PCI-SCAN" && hook.StartWin? then Post(d, NeedFocus(h))
    else if name == "PCI-SCAN" && hook.Paint? && arg == 1 then Post(d, XferControl(h, Find(d.wins, "PCI-LIST")))
    else if name == "PCI-LIST" && hook.KeyPress? && arg == ENTER then Post(d, XferControl(h, Find(d.wins, "PCI-DEV")))
    else d
  }

  function Invoke(d: Desk, h: int, hook: Hook, arg: int): Desk
    requires IsHandle(d, h)
  {
    if hook in d.wins[h].hooks then Posts(d.(calls := d.calls + [Call(hook, h, arg)]), h, hook, arg) else d
  }

  function SetState(d: Desk, h: int, st: WinState): Desk
    requires WellFormed(d) && IsHandle(d, h)
  {
    d.(states := d.states[h := st])
  }

  // ---------- messages ----------

  /** The window p_cur_wnd points to; it is set once per drain and survives from message to message. */
  datatype Current = NoWindow | Window(h: int)

  predicate CurrentInRange(d: Desk, cur: Current) {
    cur.Window? ==> IsHandle(d, cur.h)
  }

  function NowCurrent(d: Desk, cur: Current): Current {
    if d.fore >= 0 then Window(d.fore) else cur
  }

  /** Taking the focus from the current window, whether or not it still has it. */
  function LoseFocus(d: Desk, cur: Current): (d': Desk)
    requires WellFormed(d) && CurrentInRange(d, cur)
    ensures WellFormed(d') && d'.wins == d.wins && d'.box == d.box && d'.fore == d.fore
    ensures d'.states == if cur.Window? then d.states[cur.h := Background] else d.states
  {
    if cur.NoWindow? then d else SetState(Invoke(d, cur.h, LostFocus, 0), cur.h, Background)
  }

  function GiveFocus(d: Desk, h: int): (d': Desk)
    requires WellFormed(d) && IsHandle(d, h)
    ensures WellFormed(d') && d'.wins == d.wins && d'.box == d.box
    ensures d'.fore == h && d'.states == d.states[h := Foreground]
  {
    Invoke(SetState(d.(fore := h), h, Foreground), h, GetFocus, 0)
  }

  /** One turn of the loop in handle_message_event. */
  function HandleMessage(d: Desk, cur: Current, m: Message): (r: (Desk, Current))
    requires WellFormed(d) && CurrentInRange(d, cur) && InRange(|d.wins|, m)
    ensures WellFormed(r.0) && r.0.wins == d.wins && r.0.box == d.box && CurrentInRange(r.0, r.1)
  {
    match m
    case NeedFocus(s) =>
      if s == d.fore then (d, cur)
      else
        var cur' := NowCurrent(d, cur);
        (GiveFocus(LoseFocus(d, cur'), s), cur')
    case ReleaseFocus(s) =>
      if d.states[s].Foreground?
      then (SetState(Invoke(d, s, LostFocus, 0), s, Background).(fore := -1), cur)
      else (d, cur)
    case XferControl(s, t) =>
      if s == t then (d, cur)
      else
        var cur' := NowCurrent(d, cur);
        if cur'.Window? && s != d.fore then (d, cur')
        else (GiveFocus(LoseFocus(d, cur'), t), cur')
    case DestroyWindow(s) =>
      var d' := if s == d.fore then d.(fore := -1) else d;
      (SetState(Invoke(d', s, DestroyWin, 0), s, Destroyed), cur)
  }

  /** Messages handled in the order given. */
  function HandleAll(d: Desk, cur: Current, ms: seq<Message>): (d': Desk)
    requires WellFormed(d) && CurrentInRange(d, cur)
    requires AllInRange(|d.wins|, ms)
    ensures WellFormed(d') && d'.wins == d.wins && d'.box == d.box
    decreases |ms|
  {
    if ms == [] then d
    else
      var (d1, cur1) := HandleMessage(d, cur, ms[0]);
      HandleAll(d1, cur1, ms[1..])
  }

  function Reverse(ms: seq<Message>): (r: seq<Message>)
    ensures |r| == |ms| && forall i :: 0 <= i < |ms| ==> r[i] == ms[|ms| - 1 - i]
  {
    if ms == [] then [] else [ms[|ms| - 1]] + Reverse(ms[..|ms| - 1])
  }

  predicate BoxInRange(d: Desk) {
    AllInRange(|d.wins|, d.box)
  }

  /** handle_message_event: the box is a stack, so the newest post is handled first. */
  function Drain(d: Desk): (d': Desk)
    requires WellFormed(d) && BoxInRange(d)
    ensures WellFormed(d') && d'.wins == d.wins && d'.box == []
  {
    HandleAll(d.(box := []), NoWindow, Reverse(d.box))
  }

  // ---------- keys and paint ----------

  /** The window a shortcut key selects: the first background window with that key. */
  function Shortcut(d: Desk, key: int, i: nat): (h: int)
    requires WellFormed(d) && i <= |d.wins|
    ensures h == -1 || i <= h < |d.wins|
    ensures h >= 0 ==> d.states[h].Background? && d.wins[h].shortKey == key
    ensures forall j :: i <= j < (if h == -1 then |d.wins| else h)
              ==> !(d.states[j].Background? && d.wins[j].shortKey == key)
    decreases |d.wins| - i
  {
    if i == |d.wins| then -1
    else if d.states[i].Background? && d.wins[i].shortKey == key then i
    else Shortcut(d, key, i + 1)
  }

  /** The window handle_key_event dispatches to: the first foreground one. */
  function FirstForeground(d: Desk, i: nat): (h: int)
    requires WellFormed(d) && i <= |d.wins|
    ensures h == -1 || i <= h < |d.wins|
    ensures h >= 0 ==> d.states[h].Foreground?
    ensures forall j :: i <= j < (if h == -1 then |d.wins| else h) ==> !d.states[j].Foreground?
    decreases |d.wins| - i
  {
    if i == |d.wins| then -1 else if d.states[i].Foreground? then i else FirstForeground(d, i + 1)
  }

  function DispatchKey(d: Desk, key: int): Desk
    requires WellFormed(d)
  {
    var h := FirstForeground(d, 0);
    if h == -1 then d else Invoke(d, h, KeyPress, key)
  }

  /** The key half of a loop iteration. getch returns a non-positive number when there is no key. */
  function HandleKey(d: Desk, key: int): Desk
    requires WellFormed(d)
  {
    var h := Shortcut(d, key, 0);
    if h >= 0 then Post(d, NeedFocus(h)) else if key > 0 then DispatchKey(d, key) else d
  }

  function PaintWindow(d: Desk, h: int): Desk
    requires WellFormed(d) && IsHandle(d, h)
  {
    Invoke(d, h, Paint, if d.states[h].Foreground? then 1 else 0)
  }

  function PaintBackground(d: Desk, i: nat): (d': Desk)
    requires WellFormed(d) && i <= |d.wins|
    ensures WellFormed(d') && d'.wins == d.wins && d'.states == d.states && d'.fore == d.fore
    decreases |d.wins| - i
  {
    if i == |d.wins| then d
    else PaintBackground(if d.states[i].Background? then PaintWindow(d, i) else d, i + 1)
  }

  function PaintAll(d: Desk): (d': Desk)
    requires WellFormed(d)
    ensures WellFormed(d') && d'.wins == d.wins && d'.states == d.states && d'.fore == d.fore
  {
    var d1 := PaintBackground(d, 0);
    if d1.fore >= 0 then PaintWindow(d1, d1.fore) else d1
  }

  // ---------- the lifecycle passes and the main loop ----------

  /** The per-window work of the start and post-start passes, from window i on. */
  function StartAll(d: Desk, i: nat, from: WinState, hook: Hook, to: WinState): (d': Desk)
    requires WellFormed(d) && i <= |d.wins|
    ensures WellFormed(d') && d'.wins == d.wins && d'.fore == d.fore
    decreases |d.wins| - i
  {
    if i == |d.wins| then d
    else if d.states[i] != from then StartAll(d, i + 1, from, hook, to)
    else StartAll(SetState(Invoke(d, i, hook, 0), i, to), i + 1, from, hook, to)
  }

  /** handle_init_event when every init callback succeeds. */
  function InitAll(d: Desk, i: nat): (d': Desk)
    requires WellFormed(d) && i <= |d.wins|
    ensures WellFormed(d') && d'.wins == d.wins && d'.fore == d.fore
    decreases |d.wins| - i
  {
    if i == |d.wins| then d else InitAll(SetState(Invoke(d, i, Init, 0), i, Inited), i + 1)
  }

  /** handle_init_event when the init callbacks in failing fail: it stops at the first of them, which keeps
      its state. */
  function InitUntil(d: Desk, i: nat, failing: set<int>): (d': Desk)
    requires WellFormed(d) && i <= |d.wins|
    ensures WellFormed(d') && d'.wins == d.wins && d'.fore == d.fore
    decreases |d.wins| - i
  {
    if i == |d.wins| then d
    else
      var d1 := Invoke(d, i, Init, 0);
      if Init in d.wins[i].hooks && i in failing then d1 else InitUntil(SetState(d1, i, Inited), i + 1, failing)
  }

  function Boot(d: Desk): (d': Desk)
    requires WellFormed(d)
    ensures WellFormed(d') && d'.wins == d.wins && d'.fore == d.fore
  {
    StartAll(StartAll(InitAll(d, 0), 0, Inited, StartWin, Started), 0, Started, PostStartWin, Background)
  }

  /** The per-window work of the destroy and exit passes, from window i on: the spared states are
      skipped. */
  function EndAll(d: Desk, i: nat, spared: set<WinState>, hook: Hook, to: WinState): (d': Desk)
    requires WellFormed(d) && i <= |d.wins|
    ensures WellFormed(d') && d'.wins == d.wins && d'.fore == d.fore
    decreases |d.wins| - i
  {
    if i == |d.wins| then d
    else if d.states[i] in spared then EndAll(d, i + 1, spared, hook, to)
    else EndAll(SetState(Invoke(d, i, hook, 0), i, to), i + 1, spared, hook, to)
  }

  /** handle_destroy_windows, then handle_module_exit */
  function Shutdown(d: Desk): (d': Desk)
    requires WellFormed(d)
    ensures WellFormed(d') && d'.wins == d.wins
  {
    EndAll(EndAll(d, 0, {Destroyed, Exited}, DestroyWin, Destroyed), 0, {Exited}, ModuleExit, Exited)
  }

  /** One iteration of the main loop for a key that does not quit. */
  function Iterate(d: Desk, key: int): (d': Desk)
    requires WellFormed(d) && BoxInRange(HandleKey(d, key))
    ensures WellFormed(d') && d'.wins == d.wins
  {
    PaintAll(Drain(HandleKey(d, key)))
  }
}
