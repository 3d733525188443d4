/**
 What the focus machine keeps: one foreground window, which cur_fore_window_handle names; key
 dispatch to exactly that window; alternating focus callbacks; and the LIFO order of the drain.
 */
module FocusTheorems {
  import opened Desk

  // ---------- one foreground window ----------

  /** The foreground windows are exactly the one the handle names. */
  predicate OneForeground(d: Desk) {
    WellFormed(d) && forall i :: 0 <= i < |d.states| ==> (d.states[i].Foreground? <==> i == d.fore)
  }

  /** For every message, also with a current window left over from an earlier message. */
  lemma MessageKeepsOneForeground(d: Desk, cur: Current, m: Message)
    requires OneForeground(d) && CurrentInRange(d, cur) && InRange(|d.wins|, m)
    ensures OneForeground(HandleMessage(d, cur, m).0)
  {
    hide Posts, Invoke;
    match m
    case NeedFocus(s) =>
    case ReleaseFocus(s) => InvokeKeepsFocus(d, s, LostFocus, 0);
    case XferControl(s, t) =>
    case DestroyWindow(s) =>
      var d' := if s == d.fore then d.(fore := -1) else d;
      InvokeKeepsFocus(d', s, DestroyWin, 0);
  }

  lemma {:induction false} DrainKeepsOneForeground(d: Desk, cur: Current, ms: seq<Message>)
    requires OneForeground(d) && CurrentInRange(d, cur) && AllInRange(|d.wins|, ms)
    ensures OneForeground(HandleAll(d, cur, ms))
    decreases |ms|
  {
    if ms != [] {
      MessageKeepsOneForeground(d, cur, ms[0]);
      hide OneForeground, HandleMessage;
      var (d1, cur1) := HandleMessage(d, cur, ms[0]);
      DrainKeepsOneForeground(d1, cur1, ms[1..]);
    }
  }

  /** Hence the first-match search of the key dispatch finds the foreground handle. */
  lemma DispatchesToForeground(d: Desk)
    requires OneForeground(d)
    ensures FirstForeground(d, 0) == d.fore
  {
    assert d.fore >= 0 ==> d.states[d.fore].Foreground?;
  }

  lemma InvokeKeepsFocus(d: Desk, h: int, hook: Hook, arg: int)
    requires WellFormed(d) && IsHandle(d, h)
    ensures var d' := Invoke(d, h, hook, arg);
            WellFormed(d') && d'.wins == d.wins && d'.states == d.states && d'.fore == d.fore
  {}

  /** Every iteration of the main loop keeps one foreground window, whatever the box holds. */
  lemma IterationKeepsOneForeground(d: Desk, key: int)
    requires OneForeground(d) && BoxInRange(HandleKey(d, key))
    ensures OneForeground(Iterate(d, key))
  {
    var d1 := HandleKey(d, key);
    var h := FirstForeground(d, 0);
    if h >= 0 {
      InvokeKeepsFocus(d, h, KeyPress, key);
    }
    DrainKeepsOneForeground(d1.(box := []), NoWindow, Reverse(d1.box));
  }

  /** The lifecycle passes end with every window in the background. */
  lemma {:induction false} InitLeavesInited(d: Desk, i: nat)
    requires WellFormed(d) && i <= |d.wins| && forall j :: 0 <= j < i ==> d.states[j].Inited?
    ensures forall j :: 0 <= j < |d.wins| ==> InitAll(d, i).states[j].Inited?
    decreases |d.wins| - i
  {
    if i < |d.wins| {
      InvokeKeepsFocus(d, i, Init, 0);
      InitLeavesInited(SetState(Invoke(d, i, Init, 0), i, Inited), i + 1);
    }
  }

  /** When no window with an init callback fails, every window is initialised. */
  lemma {:induction false} InitWithoutFailure(d: Desk, i: nat, failing: set<int>)
    requires WellFormed(d) && i <= |d.wins|
    requires forall h :: i <= h < |d.wins| && h in failing ==> Init !in d.wins[h].hooks
    ensures InitUntil(d, i, failing) == InitAll(d, i)
    decreases |d.wins| - i
  {
    if i < |d.wins| {
      InvokeKeepsFocus(d, i, Init, 0);
      InitWithoutFailure(SetState(Invoke(d, i, Init, 0), i, Inited), i + 1, failing);
    }
  }

  /** Otherwise the first that fails is where it stops: the windows before it are initialised, it and those
      behind it are as they were. */
  lemma {:induction false} InitStopsAtFailure(d: Desk, i: nat, failing: set<int>, h: nat)
    requires WellFormed(d) && i <= h < |d.wins| && h in failing && Init in d.wins[h].hooks
    requires forall g :: i <= g < h && g in failing ==> Init !in d.wins[g].hooks
    ensures forall j :: 0 <= j < |d.wins| ==>
              InitUntil(d, i, failing).states[j] == if i <= j < h then Inited else d.states[j]
    decreases h - i
  {
    InvokeKeepsFocus(d, i, Init, 0);
    if i < h {
      InitStopsAtFailure(SetState(Invoke(d, i, Init, 0), i, Inited), i + 1, failing, h);
    }
  }

  lemma {:induction false} StartMovesOn(d: Desk, i: nat, from: WinState, hook: Hook, to: WinState)
    requires WellFormed(d) && i <= |d.wins| && from != to
    requires forall j :: 0 <= j < |d.wins| ==> d.states[j] == if j < i then to else from
    ensures forall j :: 0 <= j < |d.wins| ==> StartAll(d, i, from, hook, to).states[j] == to
    decreases |d.wins| - i
  {
    if i < |d.wins| {
      InvokeKeepsFocus(d, i, hook, 0);
      StartMovesOn(SetState(Invoke(d, i, hook, 0), i, to), i + 1, from, hook, to);
    }
  }

  lemma BootLeavesBackground(d: Desk)
    requires WellFormed(d)
    ensures forall j :: 0 <= j < |d.wins| ==> Boot(d).states[j].Background?
  {
    InitLeavesInited(d, 0);
    var d1 := InitAll(d, 0);
    StartMovesOn(d1, 0, Inited, StartWin, Started);
    StartMovesOn(StartAll(d1, 0, Inited, StartWin, Started), 0, Started, PostStartWin, Background);
  }

  /** So after booting no window is foreground, and no handle is set. */
  lemma BootHasOneForeground(d: Desk)
    requires WellFormed(d) && d.fore == -1
    ensures OneForeground(Boot(d))
  {
    BootLeavesBackground(d);
  }

  // ---------- the order of the drain ----------

  predicate AllNeedFocus(ms: seq<Message>) {
    forall m :: m in ms ==> m.NeedFocus?
  }

  lemma {:induction false} LastHandledIsInFront(d: Desk, cur: Current, ms: seq<Message>)
    requires WellFormed(d) && CurrentInRange(d, cur) && AllInRange(|d.wins|, ms)
    requires ms != [] && AllNeedFocus(ms)
    ensures HandleAll(d, cur, ms).fore == ms[|ms| - 1].sender
    decreases |ms|
  {
    var (d1, cur1) := HandleMessage(d, cur, ms[0]);
    if |ms| > 1 {
      LastHandledIsInFront(d1, cur1, ms[1..]);
    } else {
      assert ms[1..] == [];
    }
  }

  /** When every message asks for the focus, the oldest poster ends in front. */
  lemma OldestPosterWins(d: Desk)
    requires WellFormed(d) && BoxInRange(d) && d.box != [] && AllNeedFocus(d.box)
    ensures Drain(d).fore == d.box[0].sender
  {
    LastHandledIsInFront(d.(box := []), NoWindow, Reverse(d.box));
  }

  // ---------- focus callbacks alternate ----------

  /** The focus callbacks of one window, in order. */
  function FocusCalls(calls: seq<Call>, h: int): seq<Hook> {
    if calls == [] then []
    else
      var c := calls[|calls| - 1];
      FocusCalls(calls[..|calls| - 1], h)
      + (if c.handle == h && (c.hook.GetFocus? || c.hook.LostFocus?) then [c.hook] else [])
  }

  predicate Alternates(hooks: seq<Hook>) {
    forall i :: 0 <= i < |hooks| ==> hooks[i] == if i % 2 == 0 then GetFocus else LostFocus
  }

  predicate HasFocusHooks(w: WindowInfo) {
    GetFocus in w.hooks && LostFocus in w.hooks
  }

  /** A window with both callbacks has been told alternately, and was last told it has the focus
      exactly when it is the foreground window. */
  predicate ToldAlternately(d: Desk, h: int)
    requires IsHandle(d, h)
  {
    HasFocusHooks(d.wins[h]) ==>
      var hooks := FocusCalls(d.calls, h);
      Alternates(hooks) && (|hooks| % 2 == 1 <==> h == d.fore)
  }

  predicate AllToldAlternately(d: Desk) {
    forall h :: 0 <= h < |d.wins| ==> ToldAlternately(d, h)
  }

  lemma FocusCallsSnoc(calls: seq<Call>, c: Call, h: int)
    ensures FocusCalls(calls + [c], h)
            == FocusCalls(calls, h)
               + (if c.handle == h && (c.hook.GetFocus? || c.hook.LostFocus?) then [c.hook] else [])
  {
    assert (calls + [c])[..|calls|] == calls;
  }

  lemma InvokeCalls(d: Desk, h: int, hook: Hook, arg: int)
    requires IsHandle(d, h)
    ensures Invoke(d, h, hook, arg).calls == if hook in d.wins[h].hooks then d.calls + [Call(hook, h, arg)] else d.calls
    ensures Invoke(d, h, hook, arg).wins == d.wins
  {}

  lemma OtherCallsKeep(d: Desk, h: int, hook: Hook, arg: int)
    requires WellFormed(d) && IsHandle(d, h) && !hook.GetFocus? && !hook.LostFocus?
    requires AllToldAlternately(d)
    ensures AllToldAlternately(Invoke(d, h, hook, arg))
  {
    hide FocusCalls, Alternates;
    var d' := Invoke(d, h, hook, arg);
    InvokeCalls(d, h, hook, arg);
    InvokeKeepsFocus(d, h, hook, arg);
    forall w | 0 <= w < |d'.wins|
      ensures ToldAlternately(d', w)
    {
      FocusCallsSnoc(d.calls, Call(hook, h, arg), w);
      assert FocusCalls(d.calls, w) + [] == FocusCalls(d.calls, w);
      assert ToldAlternately(d, w);
    }
  }

  /** What one transfer of the focus from cur to h adds to a window's history. */
  lemma TransferCalls(d: Desk, cur: Current, h: int, w: int)
    requires WellFormed(d) && CurrentInRange(d, cur) && IsHandle(d, h) && IsHandle(d, w)
    requires HasFocusHooks(d.wins[w])
    ensures var d' := GiveFocus(LoseFocus(d, cur), h);
            FocusCalls(d'.calls, w) == FocusCalls(d.calls, w) + (if cur == Window(w) then [LostFocus] else [])
                                       + (if w == h then [GetFocus] else [])
  {
    hide FocusCalls, Posts;
    var d1 := LoseFocus(d, cur);
    if cur.Window? {
      InvokeCalls(d, cur.h, LostFocus, 0);
      FocusCallsSnoc(d.calls, Call(LostFocus, cur.h, 0), w);
    }
    var d2 := SetState(d1.(fore := h), h, Foreground);
    InvokeCalls(d2, h, GetFocus, 0);
    FocusCallsSnoc(d1.calls, Call(GetFocus, h, 0), w);
  }

  /** A transfer keeps the alternation exactly when the current window really is the foreground one, or has
      no callbacks to be told by; a window left over from before a release is told of its loss a second
      time. */
  lemma TransferAlternatesIff(d: Desk, cur: Current, h: int)
    requires OneForeground(d) && AllToldAlternately(d) && CurrentInRange(d, cur)
    requires IsHandle(d, h) && h != d.fore && (d.fore >= 0 ==> cur == Window(d.fore))
    ensures AllToldAlternately(GiveFocus(LoseFocus(d, cur), h))
            <==> d.fore >= 0 || cur.NoWindow? || !HasFocusHooks(d.wins[cur.h])
  {
    hide FocusCalls;
    var d' := GiveFocus(LoseFocus(d, cur), h);
    if d.fore >= 0 || cur.NoWindow? || !HasFocusHooks(d.wins[cur.h]) {
      TransferKeeps(d, cur, h);
    } else {
      TransferCalls(d, cur, h, cur.h);
      var was, now := FocusCalls(d.calls, cur.h), FocusCalls(d'.calls, cur.h);
      assert ToldAlternately(d, cur.h) && |was| % 2 == 0 && now[|was|] == LostFocus;
      assert !Alternates(now);
      assert !ToldAlternately(d', cur.h);
    }
  }

  lemma TransferKeeps(d: Desk, cur: Current, h: int)
    requires WellFormed(d) && AllToldAlternately(d) && CurrentInRange(d, cur) && IsHandle(d, h) && h != d.fore
    requires if d.fore >= 0 then cur == Window(d.fore) else cur.NoWindow? || !HasFocusHooks(d.wins[cur.h])
    ensures AllToldAlternately(GiveFocus(LoseFocus(d, cur), h))
  {
    hide FocusCalls;
    var d' := GiveFocus(LoseFocus(d, cur), h);
    forall w | 0 <= w < |d'.wins|
      ensures ToldAlternately(d', w)
    {
      if HasFocusHooks(d.wins[w]) {
        assert ToldAlternately(d, w);
        TransferCalls(d, cur, h, w);
      }
    }
  }

  /** The messages lfdk's modules post. */
  predicate FocusOnly(ms: seq<Message>) {
    forall m :: m in ms ==> m.NeedFocus? || m.XferControl?
  }

  /** With those messages there is a current window only while some window has the focus. */
  predicate CurrentOnlyWithFocus(d: Desk, cur: Current) {
    d.fore == -1 ==> cur.NoWindow?
  }

  lemma MessageKeepsAlternation(d: Desk, cur: Current, m: Message)
    requires WellFormed(d) && CurrentInRange(d, cur) && InRange(|d.wins|, m)
    requires AllToldAlternately(d) && CurrentOnlyWithFocus(d, cur) && FocusOnly([m])
    ensures var (d', cur') := HandleMessage(d, cur, m);
            AllToldAlternately(d') && CurrentOnlyWithFocus(d', cur') && (d.fore >= 0 ==> d'.fore >= 0)
  {
    hide AllToldAlternately, Posts;
    assert m in [m];
    var cur' := NowCurrent(d, cur);
    match m
    case NeedFocus(s) =>
      if s != d.fore {
        TransferKeeps(d, cur', s);
      }
    case XferControl(s, t) =>
      if s != t && !(cur'.Window? && s != d.fore) {
        TransferKeeps(d, cur', t);
      }
  }

  lemma {:induction false} DrainKeepsAlternation(d: Desk, cur: Current, ms: seq<Message>)
    requires WellFormed(d) && CurrentInRange(d, cur) && AllInRange(|d.wins|, ms)
    requires AllToldAlternately(d) && CurrentOnlyWithFocus(d, cur) && FocusOnly(ms)
    ensures AllToldAlternately(HandleAll(d, cur, ms))
    decreases |ms|
  {
    if ms != [] {
      hide AllToldAlternately, HandleMessage;
      assert ms[0] in ms;
      MessageKeepsAlternation(d, cur, ms[0]);
      var (d1, cur1) := HandleMessage(d, cur, ms[0]);
      DrainKeepsAlternation(d1, cur1, ms[1..]);
    }
  }

  // ---------- a current window left over ----------

  /** The focus is asked for while nobody has it, but p_cur_wnd still names a window with both callbacks that
      had it before: that window is told of its loss again. */
  predicate TellsTwice(d: Desk, cur: Current, m: Message)
    requires CurrentInRange(d, cur)
  {
    m.NeedFocus? && d.fore == -1 && cur.Window? && HasFocusHooks(d.wins[cur.h])
  }

  predicate NeverTellsTwice(d: Desk, cur: Current, ms: seq<Message>)
    requires WellFormed(d) && CurrentInRange(d, cur) && AllInRange(|d.wins|, ms)
    decreases |ms|
  {
    ms != [] ==>
      var (d1, cur1) := HandleMessage(d, cur, ms[0]);
      !TellsTwice(d, cur, ms[0]) && NeverTellsTwice(d1, cur1, ms[1..])
  }

  predicate NoDestroy(ms: seq<Message>) {
    forall m :: m in ms ==> !m.DestroyWindow?
  }

  lemma ReleaseKeeps(d: Desk, s: int)
    requires OneForeground(d) && AllToldAlternately(d) && IsHandle(d, s) && d.fore == s
    ensures AllToldAlternately(SetState(Invoke(d, s, LostFocus, 0), s, Background).(fore := -1))
  {
    hide FocusCalls, Posts;
    InvokeKeepsFocus(d, s, LostFocus, 0);
    var d' := SetState(Invoke(d, s, LostFocus, 0), s, Background).(fore := -1);
    InvokeCalls(d, s, LostFocus, 0);
    forall w | 0 <= w < |d'.wins|
      ensures ToldAlternately(d', w)
    {
      if HasFocusHooks(d.wins[w]) {
        assert ToldAlternately(d, w);
        FocusCallsSnoc(d.calls, Call(LostFocus, s, 0), w);
        assert FocusCalls(d.calls, w) + [] == FocusCalls(d.calls, w);
      }
    }
  }

  lemma StaleTransfer(d: Desk, cur: Current, h: int)
    requires OneForeground(d) && AllToldAlternately(d) && IsHandle(d, h) && d.fore == -1
    requires CurrentInRange(d, cur) && cur.Window? && HasFocusHooks(d.wins[cur.h])
    ensures !Alternates(FocusCalls(GiveFocus(LoseFocus(d, cur), h).calls, cur.h))
  {
    hide FocusCalls;
    TransferCalls(d, cur, h, cur.h);
    var was, now := FocusCalls(d.calls, cur.h), FocusCalls(GiveFocus(LoseFocus(d, cur), h).calls, cur.h);
    assert ToldAlternately(d, cur.h) && |was| % 2 == 0 && now[|was|] == LostFocus;
  }

  lemma MessageAlternatesIff(d: Desk, cur: Current, m: Message)
    requires OneForeground(d) && AllToldAlternately(d)
    requires CurrentInRange(d, cur) && InRange(|d.wins|, m) && !m.DestroyWindow?
    ensures !TellsTwice(d, cur, m) ==> AllToldAlternately(HandleMessage(d, cur, m).0)
    ensures TellsTwice(d, cur, m) ==> !Alternates(FocusCalls(HandleMessage(d, cur, m).0.calls, cur.h))
  {
    hide FocusCalls, Posts, Invoke, AllToldAlternately, Alternates, GiveFocus, LoseFocus;
    var cur' := NowCurrent(d, cur);
    match m
    case NeedFocus(s) =>
      if TellsTwice(d, cur, m) {
        StaleTransfer(d, cur, s);
      } else if s != d.fore {
        TransferKeeps(d, cur', s);
      }
    case ReleaseFocus(s) =>
      if d.states[s].Foreground? {
        ReleaseKeeps(d, s);
      }
    case XferControl(s, t) =>
      if s != t && !(cur'.Window? && s != d.fore) {
        TransferKeeps(d, cur', t);
      }
  }

  lemma {:induction false} FocusCallsGrow(calls: seq<Call>, more: seq<Call>, h: int)
    ensures FocusCalls(calls, h) <= FocusCalls(calls + more, h)
  {
    if more == [] {
      assert calls + more == calls;
    } else {
      var init, c := more[..|more| - 1], more[|more| - 1];
      FocusCallsGrow(calls, init, h);
      assert calls + more == (calls + init) + [c];
      FocusCallsSnoc(calls + init, c, h);
    }
  }

  lemma {:induction false} HistoryGrows(d: Desk, cur: Current, ms: seq<Message>)
    requires WellFormed(d) && CurrentInRange(d, cur) && AllInRange(|d.wins|, ms)
    ensures d.calls <= HandleAll(d, cur, ms).calls
    decreases |ms|
  {
    if ms != [] {
      MessageCallsGrow(d, cur, ms[0]);
      hide HandleMessage;
      var (d1, cur1) := HandleMessage(d, cur, ms[0]);
      HistoryGrows(d1, cur1, ms[1..]);
    }
  }

  lemma MessageCallsGrow(d: Desk, cur: Current, m: Message)
    requires WellFormed(d) && CurrentInRange(d, cur) && InRange(|d.wins|, m)
    ensures d.calls <= HandleMessage(d, cur, m).0.calls
  {
    hide Posts, Invoke;
    var cur' := NowCurrent(d, cur);
    match m
    case NeedFocus(s) => TransferGrows(d, cur', s);
    case ReleaseFocus(s) => InvokeCalls(d, s, LostFocus, 0);
    case XferControl(s, t) => TransferGrows(d, cur', t);
    case DestroyWindow(s) => InvokeCalls(if s == d.fore then d.(fore := -1) else d, s, DestroyWin, 0);
  }

  lemma TransferGrows(d: Desk, cur: Current, h: int)
    requires WellFormed(d) && CurrentInRange(d, cur) && IsHandle(d, h)
    ensures d.calls <= GiveFocus(LoseFocus(d, cur), h).calls
  {
    hide Posts;
    if cur.Window? {
      InvokeCalls(d, cur.h, LostFocus, 0);
    }
    InvokeCalls(SetState(LoseFocus(d, cur).(fore := h), h, Foreground), h, GetFocus, 0);
  }

  /** A whole drain of focus, transfer and release messages keeps every history alternating if and only if
      no message in it tells a window twice: a history that has ceased to alternate never does again. */
  lemma {:induction false} DrainAlternatesIff(d: Desk, cur: Current, ms: seq<Message>)
    requires OneForeground(d) && AllToldAlternately(d)
    requires CurrentInRange(d, cur) && AllInRange(|d.wins|, ms) && NoDestroy(ms)
    ensures AllToldAlternately(HandleAll(d, cur, ms)) <==> NeverTellsTwice(d, cur, ms)
    decreases |ms|
  {
    if ms != [] {
      assert ms[0] in ms;
      MessageAlternatesIff(d, cur, ms[0]);
      MessageKeepsOneForeground(d, cur, ms[0]);
      hide FocusCalls, Alternates, OneForeground, HandleMessage, AllToldAlternately, Posts;
      var (d1, cur1) := HandleMessage(d, cur, ms[0]);
      if TellsTwice(d, cur, ms[0]) {
        HistoryGrows(d1, cur1, ms[1..]);
        NeverAgain(d1, HandleAll(d1, cur1, ms[1..]), cur.h);
      } else {
        DrainAlternatesIff(d1, cur1, ms[1..]);
      }
    }
  }

  lemma NeverAgain(d: Desk, d': Desk, w: int)
    requires IsHandle(d, w) && d'.wins == d.wins && d.calls <= d'.calls && HasFocusHooks(d.wins[w])
    requires !Alternates(FocusCalls(d.calls, w))
    ensures !AllToldAlternately(d')
  {
    hide FocusCalls;
    assert d'.calls == d.calls + d'.calls[|d.calls|..];
    FocusCallsGrow(d.calls, d'.calls[|d.calls|..], w);
    assert !ToldAlternately(d', w);
  }

  lemma AskedAndReleased(d: Desk, a: int, b: int)
    requires OneForeground(d) && d.fore == a >= 0 && IsHandle(d, b) && b != a
    ensures var (d1, cur1) := HandleMessage(d, NoWindow, NeedFocus(b));
            var (d2, cur2) := HandleMessage(d1, cur1, ReleaseFocus(b));
            d2.fore == -1 && cur2 == Window(a)
  {
    hide Posts, Invoke, GiveFocus, LoseFocus;
    InvokeKeepsFocus(GiveFocus(LoseFocus(d, Window(a)), b), b, LostFocus, 0);
  }

  /** A box on which it happens: b asks for the focus that a has and releases it again, then c asks. Window
      a, still p_cur_wnd, is told of its loss twice; b and c may be any windows, with callbacks or without. */
  lemma ReleaseTellsTwice(d: Desk, a: int, b: int, c: int)
    requires OneForeground(d) && AllToldAlternately(d)
    requires d.fore == a >= 0 && HasFocusHooks(d.wins[a]) && IsHandle(d, b) && IsHandle(d, c) && b != a
    requires d.box == [NeedFocus(c), ReleaseFocus(b), NeedFocus(b)]
    ensures BoxInRange(d) && !AllToldAlternately(Drain(d))
  {
    hide HandleMessage, HandleAll, NeverTellsTwice, ToldAlternately;
    var ms := [NeedFocus(b), ReleaseFocus(b), NeedFocus(c)];
    var d0 := d.(box := []);
    assert Reverse(d.box) == ms;
    assert AllToldAlternately(d0) by {
      SameToldAlternately(d, d0);
    }
    hide AllToldAlternately;
    DrainAlternatesIff(d0, NoWindow, ms);
    ReleaseThenAsk(d0, a, b, c);
  }

  lemma SameToldAlternately(d: Desk, d': Desk)
    requires d'.wins == d.wins && d'.calls == d.calls && d'.fore == d.fore
    ensures forall w :: 0 <= w < |d.wins| && ToldAlternately(d, w) ==> ToldAlternately(d', w)
  {
    hide FocusCalls, Alternates;
  }

  lemma ReleaseThenAsk(d: Desk, a: int, b: int, c: int)
    requires OneForeground(d) && d.fore == a >= 0 && HasFocusHooks(d.wins[a])
    requires IsHandle(d, b) && IsHandle(d, c) && b != a
    ensures AllInRange(|d.wins|, [NeedFocus(b), ReleaseFocus(b), NeedFocus(c)])
    ensures !NeverTellsTwice(d, NoWindow, [NeedFocus(b), ReleaseFocus(b), NeedFocus(c)])
  {
    AskedAndReleased(d, a, b);
    hide HandleMessage, OneForeground, HasFocusHooks;
    var ms := [NeedFocus(b), ReleaseFocus(b), NeedFocus(c)];
    assert ms[1..] == [ReleaseFocus(b), NeedFocus(c)] && ms[1..][1..] == [NeedFocus(c)];
    var (d1, cur1) := HandleMessage(d, NoWindow, ms[0]);
    var (d2, cur2) := HandleMessage(d1, cur1, ReleaseFocus(b));
    assert !NeverTellsTwice(d2, cur2, [NeedFocus(c)]);
    assert !NeverTellsTwice(d1, cur1, [ReleaseFocus(b), NeedFocus(c)]);
  }

  // ---------- destroyed windows ----------

  /** The message moves the focus, and where to. */
  predicate Transfers(d: Desk, cur: Current, m: Message) {
    match m
    case NeedFocus(s) => s != d.fore
    case XferControl(s, t) => s != t && (NowCurrent(d, cur).Window? ==> s == d.fore)
    case _ => false
  }

  function TargetOf(m: Message): int {
    if m.XferControl? then m.target else m.sender
  }

  /** A destroyed window gets a state again exactly when a transfer goes to it, or comes from it because
      p_cur_wnd still names it. */
  lemma DestroyedRevivesIff(d: Desk, cur: Current, m: Message, w: int)
    requires WellFormed(d) && CurrentInRange(d, cur) && InRange(|d.wins|, m) && IsHandle(d, w) && d.states[w].Destroyed?
    ensures !HandleMessage(d, cur, m).0.states[w].Destroyed?
            <==> Transfers(d, cur, m) && (TargetOf(m) == w || NowCurrent(d, cur) == Window(w))
  {
    hide Posts, Invoke;
    match m
    case NeedFocus(s) =>
    case ReleaseFocus(s) => InvokeKeepsFocus(d, s, LostFocus, 0);
    case XferControl(s, t) =>
    case DestroyWindow(s) => InvokeKeepsFocus(if s == d.fore then d.(fore := -1) else d, s, DestroyWin, 0);
  }

  /** A box on which it happens: a has the focus, a transfer that is not a's is dropped, a is destroyed, and
      b asks for the focus. Window a, still p_cur_wnd, is in the background afterwards. */
  lemma DestroyedIsRevived(d: Desk, a: int, b: int, c: int)
    requires OneForeground(d) && d.fore == a >= 0 && IsHandle(d, b) && IsHandle(d, c) && a != b && b != c
    requires d.box == [NeedFocus(b), DestroyWindow(a), XferControl(b, c)]
    ensures BoxInRange(d) && Drain(d).states[a].Background?
  {
    var ms := [XferControl(b, c), DestroyWindow(a), NeedFocus(b)];
    assert Reverse(d.box) == ms;
    var d0 := d.(box := []);
    hide Posts, Invoke;
    var d1 := SetState(Invoke(d0.(fore := -1), a, DestroyWin, 0), a, Destroyed);
    InvokeKeepsFocus(d0.(fore := -1), a, DestroyWin, 0);
    assert HandleMessage(d0, NoWindow, ms[0]) == (d0, Window(a));
    assert HandleMessage(d0, Window(a), ms[1]) == (d1, Window(a)) && d1.states[a].Destroyed?;
    var (d2, cur2) := HandleMessage(d1, Window(a), ms[2]);
    assert d2.states[a].Background?;
    assert ms[1..] == [ms[1], ms[2]] && ms[1..][1..] == [ms[2]] && [ms[2]][1..] == [];
    assert HandleAll(d2, cur2, []) == d2;
    hide HandleMessage;
    assert HandleAll(d1, Window(a), [ms[2]]) == d2;
    assert HandleAll(d0, Window(a), ms[1..]) == d2;
  }
}
