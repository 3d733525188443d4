/**
 The lifecycle of every window over a whole run of lfdk: initialised, started, post-started, destroyed
 and exited, each once and in this order, whatever happens to the focus in between.
 */
module Lifecycle {
  import opened Desk
  import opened FocusTheorems
  import opened MainLoop

  predicate IsLife(hook: Hook) {
    hook.Init? || hook.StartWin? || hook.PostStartWin? || hook.DestroyWin? || hook.ModuleExit?
  }

  /** The lifecycle callbacks of one window, in order. */
  function Life(calls: seq<Call>, h: int): seq<Hook> {
    if calls == [] then []
    else
      var c := calls[|calls| - 1];
      Life(calls[..|calls| - 1], h) + (if c.handle == h && IsLife(c.hook) then [c.hook] else [])
  }

  /** The hook, if the window has it. */
  function IfHooked(wins: seq<WindowInfo>, h: int, hook: Hook): seq<Hook>
    requires 0 <= h < |wins|
  {
    if hook in wins[h].hooks then [hook] else []
  }

  lemma InvokeLife(d: Desk, h: int, hook: Hook, arg: int, w: int)
    requires WellFormed(d) && IsHandle(d, h)
    ensures Life(Invoke(d, h, hook, arg).calls, w)
            == Life(d.calls, w) + if h == w && IsLife(hook) then IfHooked(d.wins, w, hook) else []
  {
    InvokeCalls(d, h, hook, arg);
    var c := Call(hook, h, arg);
    assert (d.calls + [c])[..|d.calls|] == d.calls;
  }

  /** One window's step of a pass. */
  lemma StepLife(d: Desk, i: int, hook: Hook, to: WinState, w: int)
    requires WellFormed(d) && IsHandle(d, i) && IsLife(hook)
    ensures WellFormed(Invoke(d, i, hook, 0)) && Invoke(d, i, hook, 0).wins == d.wins
    ensures var d' := SetState(Invoke(d, i, hook, 0), i, to);
            WellFormed(d') && d'.wins == d.wins && d'.states == d.states[i := to]
            && Life(d'.calls, w) == Life(d.calls, w) + if i == w then IfHooked(d.wins, w, hook) else []
  {
    InvokeKeepsFocus(d, i, hook, 0);
    InvokeLife(d, i, hook, 0, w);
  }

  // ---------- the passes ----------

  lemma EndOf(hooks: seq<Hook>)
    ensures hooks + [] == hooks
  {}

  lemma {:induction false} InitLife(d: Desk, i: nat, w: nat)
    requires WellFormed(d) && i <= |d.wins| && w < |d.wins|
    ensures Life(InitAll(d, i).calls, w) == Life(d.calls, w) + if i <= w then IfHooked(d.wins, w, Init) else []
    decreases |d.wins| - i
  {
    hide Invoke, Life, IfHooked, IsLife, SetState;
    EndOf(Life(d.calls, w));
    if i < |d.wins| {
      StepLife(d, i, Init, Inited, w);
      InitLife(SetState(Invoke(d, i, Init, 0), i, Inited), i + 1, w);
    }
  }

  lemma {:induction false} StartLife(d: Desk, i: nat, from: WinState, hook: Hook, to: WinState, w: nat)
    requires WellFormed(d) && i <= |d.wins| && w < |d.wins| && IsLife(hook)
    ensures Life(StartAll(d, i, from, hook, to).calls, w)
            == Life(d.calls, w) + if i <= w && d.states[w] == from then IfHooked(d.wins, w, hook) else []
    decreases |d.wins| - i
  {
    hide Invoke, Life, IfHooked, IsLife, SetState;
    EndOf(Life(d.calls, w));
    if i < |d.wins| {
      if d.states[i] == from {
        StepLife(d, i, hook, to, w);
        StartLife(SetState(Invoke(d, i, hook, 0), i, to), i + 1, from, hook, to, w);
      } else {
        StartLife(d, i + 1, from, hook, to, w);
      }
    }
  }

  lemma {:induction false} EndLife(d: Desk, i: nat, spared: set<WinState>, hook: Hook, to: WinState, w: nat)
    requires WellFormed(d) && i <= |d.wins| && w < |d.wins| && IsLife(hook)
    ensures var d' := EndAll(d, i, spared, hook, to);
            && Life(d'.calls, w)
               == Life(d.calls, w) + (if i <= w && d.states[w] !in spared then IfHooked(d.wins, w, hook) else [])
            && d'.states[w] == if i <= w && d.states[w] !in spared then to else d.states[w]
    decreases |d.wins| - i
  {
    hide Invoke, Life, IfHooked, IsLife, SetState;
    EndOf(Life(d.calls, w));
    if i < |d.wins| {
      if d.states[i] !in spared {
        StepLife(d, i, hook, to, w);
        EndLife(SetState(Invoke(d, i, hook, 0), i, to), i + 1, spared, hook, to, w);
      } else {
        EndLife(d, i + 1, spared, hook, to, w);
      }
    }
  }

  function StartCallbacks(wins: seq<WindowInfo>, w: int): seq<Hook>
    requires 0 <= w < |wins|
  {
    IfHooked(wins, w, Init) + IfHooked(wins, w, StartWin) + IfHooked(wins, w, PostStartWin)
  }

  lemma BootLife(d: Desk, w: nat)
    requires WellFormed(d) && d.calls == [] && w < |d.wins|
    ensures Life(Boot(d).calls, w) == StartCallbacks(d.wins, w)
  {
    hide InitAll, StartAll, Life, IfHooked;
    NoLife(w);
    var d1 := InitAll(d, 0);
    InitLife(d, 0, w);
    InitLeavesInited(d, 0);
    var d2 := StartAll(d1, 0, Inited, StartWin, Started);
    StartLife(d1, 0, Inited, StartWin, Started, w);
    StartMovesOn(d1, 0, Inited, StartWin, Started);
    StartLife(d2, 0, Started, PostStartWin, Background, w);
  }

  lemma NoLife(w: int)
    ensures Life([], w) == []
  {}

  // ---------- the loop leaves the lifecycle alone ----------

  /** Started and not destroyed. */
  predicate Live(d: Desk) {
    forall h :: 0 <= h < |d.states| ==> d.states[h].Background? || d.states[h].Foreground?
  }

  lemma OtherLife(d: Desk, h: int, hook: Hook, arg: int, w: int)
    requires WellFormed(d) && IsHandle(d, h) && !IsLife(hook) && Live(d)
    ensures var d' := Invoke(d, h, hook, arg);
            Life(d'.calls, w) == Life(d.calls, w) && Live(d')
  {
    InvokeKeepsFocus(d, h, hook, arg);
    InvokeLife(d, h, hook, arg, w);
    assert Life(d.calls, w) + [] == Life(d.calls, w);
  }

  lemma TransferLife(d: Desk, cur: Current, h: int, w: int)
    requires WellFormed(d) && CurrentInRange(d, cur) && IsHandle(d, h) && Live(d)
    ensures var d' := GiveFocus(LoseFocus(d, cur), h);
            Life(d'.calls, w) == Life(d.calls, w) && Live(d')
  {
    hide Invoke, Life;
    if cur.Window? {
      OtherLife(d, cur.h, LostFocus, 0, w);
    }
    var d1 := LoseFocus(d, cur);
    OtherLife(SetState(d1.(fore := h), h, Foreground), h, GetFocus, 0, w);
  }

  lemma {:induction false} DrainLife(d: Desk, cur: Current, ms: seq<Message>, w: int)
    requires WellFormed(d) && CurrentInRange(d, cur) && AllInRange(|d.wins|, ms) && FocusOnly(ms) && Live(d)
    ensures var d' := HandleAll(d, cur, ms);
            Life(d'.calls, w) == Life(d.calls, w) && Live(d')
    decreases |ms|
  {
    hide Life, GiveFocus, LoseFocus, Live;
    if ms != [] {
      assert ms[0] in ms;
      var cur' := NowCurrent(d, cur);
      match ms[0] {
        case NeedFocus(s) => TransferLife(d, cur', s, w);
        case XferControl(s, t) => TransferLife(d, cur', t, w);
      }
      var (d1, cur1) := HandleMessage(d, cur, ms[0]);
      DrainLife(d1, cur1, ms[1..], w);
    }
  }

  lemma {:induction false} PaintLife(d: Desk, i: nat, w: int)
    requires WellFormed(d) && i <= |d.wins| && Live(d)
    ensures Life(PaintBackground(d, i).calls, w) == Life(d.calls, w)
    decreases |d.wins| - i
  {
    if i < |d.wins| {
      hide Invoke, Life, Live;
      if d.states[i].Background? {
        OtherLife(d, i, Paint, 0, w);
        InvokeKeepsFocus(d, i, Paint, 0);
        PaintLife(PaintWindow(d, i), i + 1, w);
      } else {
        PaintLife(d, i + 1, w);
      }
    }
  }

  lemma PaintAllLife(d: Desk, w: int)
    requires WellFormed(d) && Live(d)
    ensures Life(PaintAll(d).calls, w) == Life(d.calls, w) && Live(PaintAll(d))
  {
    hide Invoke, Life;
    PaintLife(d, 0, w);
    var d1 := PaintBackground(d, 0);
    if d1.fore >= 0 {
      OtherLife(d1, d1.fore, Paint, if d1.states[d1.fore].Foreground? then 1 else 0, w);
    }
  }

  lemma KeyLife(d: Desk, key: int, w: int)
    requires WellFormed(d) && Live(d)
    ensures Life(HandleKey(d, key).calls, w) == Life(d.calls, w) && Live(HandleKey(d, key))
  {
    hide Invoke, Life;
    var h := FirstForeground(d, 0);
    if h >= 0 {
      OtherLife(d, h, KeyPress, key, w);
    }
  }

  lemma IterationLife(d: Desk, key: int, w: int)
    requires Between(d) && Live(d)
    ensures BoxInRange(HandleKey(d, key))
    ensures Life(Iterate(d, key).calls, w) == Life(d.calls, w) && Live(Iterate(d, key))
  {
    BetweenIsWellFormed(d);
    KeyPostsOne(d, key);
    KeyLife(d, key, w);
    hide HandleKey, HandleAll, PaintAll, Life, Between, AllToldAlternately, Live;
    var d1 := HandleKey(d, key);
    ReverseMembers(d1.box);
    SameLive(d1, d1.(box := []));
    DrainLife(d1.(box := []), NoWindow, Reverse(d1.box), w);
    PaintAllLife(Drain(d1), w);
  }

  lemma SameLive(d: Desk, d': Desk)
    requires Live(d) && d'.states == d.states
    ensures Live(d')
  {}

  lemma {:induction false} LoopLife(d: Desk, keys: seq<int>, w: int)
    requires Between(d) && Live(d)
    ensures Life(Loop(d, keys).calls, w) == Life(d.calls, w) && Live(Loop(d, keys))
    decreases |keys|
  {
    if keys != [] && !Quits(keys[0]) {
      hide Between, Iterate, HandleKey, Life, Live;
      IterationLife(d, keys[0], w);
      IterationKeepsBetween(d, keys[0]);
      LoopLife(Iterate(d, keys[0]), keys[1..], w);
    }
  }

  /** Every run of lfdk's modules, however the keys move the focus: each window's lifecycle callbacks
      are those of init, start, post-start, destroy and exit that it has, each once and in this order. */
  lemma LifecycleOnceInOrder(d: Desk, keys: seq<int>, w: nat)
    requires Registered(d) && w < |d.wins|
    ensures Between(Boot(d))
    ensures Life(Shutdown(Loop(Boot(d), keys)).calls, w)
            == StartCallbacks(d.wins, w) + IfHooked(d.wins, w, DestroyWin) + IfHooked(d.wins, w, ModuleExit)
  {
    BootRequestsScan(d);
    BootLeavesBackground(d);
    BootLife(d, w);
    var d1 := Boot(d);
    assert Live(d1);
    LoopLife(d1, keys, w);
    hide Boot, Loop, Between, Registered, EndAll, Life, IfHooked, StartCallbacks;
    var d2 := Loop(d1, keys);
    LoopIsWellFormed(d1, keys);
    var d3 := EndAll(d2, 0, {Destroyed, Exited}, DestroyWin, Destroyed);
    EndLife(d2, 0, {Destroyed, Exited}, DestroyWin, Destroyed, w);
    EndLife(d3, 0, {Exited}, ModuleExit, Exited, w);
  }

  lemma LoopIsWellFormed(d: Desk, keys: seq<int>)
    requires Between(d)
    ensures WellFormed(Loop(d, keys)) && Loop(d, keys).wins == d.wins
  {
    BetweenIsWellFormed(Loop(d, keys));
  }
}
