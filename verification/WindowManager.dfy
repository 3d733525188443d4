/**
 The global win_manager of lfdk/lfdk.c with its fixed-size pool and message box, updated in place.
 Every method is proved against the pure steps of module Desk, through the abstraction Abs.
 */
module WindowManager {
  import D = Desk
  import F = FocusTheorems
  import M = MainLoop

  const ERR_BUF_OVERFLOW: int := -32
  const ERR_INVALID_PARAM: int := -28

  datatype PoolEntry = PoolEntry(info: D.WindowInfo, state: D.WinState)

  class Manager {
    const pool: array<PoolEntry>
    var used: int
    const msgBox: array<D.Message>
    var msgUsed: int
    var fore: int
    ghost var calls: seq<D.Call>

    ghost predicate Valid()
      reads this
    {
      && pool.Length == D.POOL_SIZE && msgBox.Length == D.MSG_SIZE
      && 0 <= used <= D.POOL_SIZE && 0 <= msgUsed <= D.MSG_SIZE && -1 <= fore < used
    }

    ghost function Wins(): (wins: seq<D.WindowInfo>)
      reads this, pool
      requires Valid()
      ensures |wins| == used && forall i :: 0 <= i < used ==> wins[i] == pool[i].info
    {
      seq(used, i requires 0 <= i < used <= pool.Length reads this, pool => pool[i].info)
    }

    ghost function States(): (states: seq<D.WinState>)
      reads this, pool
      requires Valid()
      ensures |states| == used && forall i :: 0 <= i < used ==> states[i] == pool[i].state
    {
      seq(used, i requires 0 <= i < used <= pool.Length reads this, pool => pool[i].state)
    }

    ghost function Abs(): (d: D.Desk)
      reads this, pool, msgBox
      requires Valid()
      ensures D.WellFormed(d)
    {
      D.Desk(Wins(), States(), msgBox[..msgUsed], fore, calls)
    }

    constructor ()
      ensures Valid() && fresh(pool) && fresh(msgBox)
      ensures Abs() == D.Desk([], [], [], -1, [])
    {
      pool := new PoolEntry[D.POOL_SIZE](_ => PoolEntry(D.WindowInfo("", 0, {}), D.NotStarted));
      msgBox := new D.Message[D.MSG_SIZE](_ => D.NeedFocus(0));
      used, msgUsed, fore := 0, 0, -1;
      calls := [];
    }

    // ---------- posting ----------

    /** A full pool refuses the window; otherwise its handle is its index. */
    method RegisterWindow(info: D.WindowInfo) returns (handle: int)
      requires Valid()
      modifies this`used, pool
      ensures Valid()
      ensures old(used) == D.POOL_SIZE ==> handle == ERR_BUF_OVERFLOW && Abs() == old(Abs())
      ensures old(used) < D.POOL_SIZE ==>
                var d := old(Abs());
                handle == |d.wins| && Abs() == d.(wins := d.wins + [info], states := d.states + [D.NotStarted])
    {
      if used + 1 > D.POOL_SIZE {
        return ERR_BUF_OVERFLOW;
      }
      pool[used] := PoolEntry(info, D.NotStarted);
      handle := used;
      used := used + 1;
      ghost var d := old(Abs());
      assert Wins() == d.wins + [info] && States() == d.states + [D.NotStarted];
    }

    /** The checks every poster starts with. */
    predicate Accepts(name: string, handle: int)
      reads this, pool
      requires Valid()
    {
      0 <= handle < used && pool[handle].info.name == name && msgUsed < D.MSG_SIZE
    }

    function Status(name: string, handle: int): int
      reads this, pool
      requires Valid()
    {
      if handle < 0 || handle >= used || pool[handle].info.name != name then ERR_INVALID_PARAM
      else if msgUsed >= D.MSG_SIZE then ERR_BUF_OVERFLOW
      else 0
    }

    method Push(m: D.Message)
      requires Valid() && msgUsed < D.MSG_SIZE
      modifies this`msgUsed, msgBox
      ensures Valid() && Abs() == old(Abs()).(box := old(Abs()).box + [m])
    {
      msgBox[msgUsed] := m;
      msgUsed := msgUsed + 1;
      assert Wins() == old(Wins()) && States() == old(States());
    }

    /** request_windows_focus */
    method RequestFocus(name: string, handle: int) returns (ret: int)
      requires Valid()
      modifies this`msgUsed, msgBox
      ensures Valid() && ret == old(Status(name, handle))
      ensures Abs() == if ret == 0 then D.Post(old(Abs()), D.NeedFocus(handle)) else old(Abs())
    {
      ret := Status(name, handle);
      if ret == 0 {
        Push(D.NeedFocus(handle));
      }
    }

    /** release_windows_focus */
    method ReleaseFocus(name: string, handle: int) returns (ret: int)
      requires Valid()
      modifies this`msgUsed, msgBox
      ensures Valid() && ret == old(Status(name, handle))
      ensures Abs() == if ret == 0 then D.Post(old(Abs()), D.ReleaseFocus(handle)) else old(Abs())
    {
      ret := Status(name, handle);
      if ret == 0 {
        Push(D.ReleaseFocus(handle));
      }
    }

    /** request_destroy_windows; the C function returns no value when it posts, so nothing is said of ret
        then. */
    method RequestDestroy(name: string, handle: int) returns (ret: int)
      requires Valid()
      modifies this`msgUsed, msgBox
      ensures Valid() && (!old(Accepts(name, handle)) ==> ret == old(Status(name, handle)) < 0)
      ensures Abs() == if old(Accepts(name, handle)) then D.Post(old(Abs()), D.DestroyWindow(handle)) else old(Abs())
    {
      ret := Status(name, handle);
      if ret == 0 {
        Push(D.DestroyWindow(handle));
      }
    }

    /** request_xfer_control: the first window of that name is the target, -1 if there is none. Nothing is
        said of ret when it posts. */
    method RequestXfer(name: string, handle: int, target: string) returns (ret: int)
      requires Valid()
      modifies this`msgUsed, msgBox
      ensures Valid() && (!old(Accepts(name, handle)) ==> ret == old(Status(name, handle)) < 0)
      ensures Abs() == if old(Accepts(name, handle))
                       then D.Post(old(Abs()), D.XferControl(handle, D.Find(old(Wins()), target)))
                       else old(Abs())
    {
      ret := Status(name, handle);
      if ret != 0 {
        return;
      }
      var found := -1;
      var i := 0;
      while i < used
        invariant 0 <= i <= used
        invariant found == -1
        invariant D.Find(Wins(), target) == D.FindFrom(Wins(), target, i)
      {
        if pool[i].info.name == target {
          found := i;
          break;
        }
        i := i + 1;
      }
      assert found == D.Find(Wins(), target);
      Push(D.XferControl(handle, found));
    }

    /** request_window_state for a valid handle and name. */
    method RequestState(name: string, handle: int) returns (known: bool, state: D.WinState)
      requires Valid()
      ensures known <==> 0 <= handle < used && pool[handle].info.name == name
      ensures known ==> state == Abs().states[handle]
    {
      if handle < 0 || handle >= used || pool[handle].info.name != name {
        return false, D.NotStarted;
      }
      return true, pool[handle].state;
    }

    // ---------- callbacks ----------

    method SetState(h: int, st: D.WinState)
      requires Valid() && 0 <= h < used
      modifies pool
      ensures Valid() && Abs() == D.SetState(old(Abs()), h, st)
    {
      pool[h] := pool[h].(state := st);
      assert Wins() == old(Wins()) && States() == old(States())[h := st];
    }

    /** Calling a callback through its pointer, if there is one; what it does to the manager is what
        lfdk's module of that name does. */
    method Invoke(h: int, hook: D.Hook, arg: int)
      requires Valid() && 0 <= h < used
      modifies this`msgUsed, this`calls, msgBox
      ensures Valid() && Abs() == D.Invoke(old(Abs()), h, hook, arg)
    {
      var info := pool[h].info;
      if hook !in info.hooks {
        return;
      }
      calls := calls + [D.Call(hook, h, arg)];
      assert Wins() == old(Wins()) && States() == old(States());
      ghost var d := Abs();
      assert d == old(Abs()).(calls := calls);
      if info.name == "PCI-SCAN" && hook.StartWin? {
        var _ := RequestFocus(info.name, h);
      } else if info.name == "PCI-SCAN" && hook.Paint? && arg == 1 {
        var _ := RequestXfer(info.name, h, "PCI-LIST");
      } else if info.name == "PCI-LIST" && hook.KeyPress? && arg == D.ENTER {
        var _ := RequestXfer(info.name, h, "PCI-DEV");
      }
    }

    // ---------- keys ----------

    /** switch_key_press */
    method SwitchKeyPress(key: int) returns (found: bool)
      requires Valid()
      modifies this`msgUsed, msgBox
      ensures Valid()
      ensures var d := old(Abs());
              var h := D.Shortcut(d, key, 0);
              found == (h >= 0) && Abs() == if h >= 0 then D.Post(d, D.NeedFocus(h)) else d
    {
      found := false;
      var i := 0;
      while i < used
        invariant 0 <= i <= used
        invariant D.Shortcut(Abs(), key, 0) == D.Shortcut(Abs(), key, i)
      {
        if pool[i].state == D.Background && pool[i].info.shortKey == key {
          var _ := RequestFocus(pool[i].info.name, i);
          return true;
        }
        i := i + 1;
      }
    }

    /** handle_key_event */
    method HandleKeyEvent(key: int)
      requires Valid()
      modifies this`msgUsed, this`calls, msgBox
      ensures Valid() && Abs() == D.DispatchKey(old(Abs()), key)
    {
      var i := 0;
      while i < used
        invariant 0 <= i <= used
        invariant D.FirstForeground(Abs(), 0) == D.FirstForeground(Abs(), i)
      {
        if pool[i].state == D.Foreground {
          Invoke(i, D.KeyPress, key);
          return;
        }
        i := i + 1;
      }
    }

    // ---------- messages ----------

    /** The focus changes hands: lost_focus to the current window, get_focus to window h. */
    method Transfer(ghost cur: D.Current, curWnd: int, h: int)
      requires Valid() && 0 <= h < used && -1 <= curWnd < used
      requires cur == if curWnd == -1 then D.NoWindow else D.Window(curWnd)
      modifies this`msgUsed, this`fore, this`calls, msgBox, pool
      ensures Valid() && Abs() == D.GiveFocus(D.LoseFocus(old(Abs()), cur), h)
    {
      hide Abs;
      if curWnd >= 0 {
        Invoke(curWnd, D.LostFocus, 0);
        SetState(curWnd, D.Background);
      }
      SetFore(h);
      SetState(h, D.Foreground);
      Invoke(h, D.GetFocus, 0);
    }

    method SetFore(h: int)
      requires Valid() && -1 <= h < used
      modifies this`fore
      ensures Valid() && Abs() == old(Abs()).(fore := h)
    {
      fore := h;
      assert Wins() == old(Wins()) && States() == old(States());
    }

    /** One message. curWnd is p_cur_wnd, as a handle. */
    method HandleMessage(m: D.Message, ghost cur: D.Current, curWnd: int) returns (ghost cur': D.Current, curWnd': int)
      requires Valid() && -1 <= curWnd < used && D.InRange(used, m)
      requires cur == if curWnd == -1 then D.NoWindow else D.Window(curWnd)
      modifies this`msgUsed, this`fore, this`calls, msgBox, pool
      ensures Valid() && used == old(used) && -1 <= curWnd' < used
      ensures cur' == if curWnd' == -1 then D.NoWindow else D.Window(curWnd')
      ensures (Abs(), cur') == D.HandleMessage(old(Abs()), cur, m)
    {
      cur', curWnd' := cur, curWnd;
      match m
      case NeedFocus(s) =>
        if s == fore {
          return;
        }
        if fore >= 0 {
          cur', curWnd' := D.Window(fore), fore;
        }
        Transfer(cur', curWnd', s);
      case ReleaseFocus(s) =>
        if pool[s].state == D.Foreground {
          Invoke(s, D.LostFocus, 0);
          SetState(s, D.Background);
          SetFore(-1);
        }
      case XferControl(s, t) =>
        if s == t {
          return;
        }
        if fore >= 0 {
          cur', curWnd' := D.Window(fore), fore;
        }
        if curWnd' >= 0 && s != fore {
          return;
        }
        Transfer(cur', curWnd', t);
      case DestroyWindow(s) =>
        if s == fore {
          SetFore(-1);
        }
        Invoke(s, D.DestroyWin, 0);
        SetState(s, D.Destroyed);
    }

    method Pop() returns (m: D.Message)
      requires Valid() && msgUsed > 0
      modifies this`msgUsed
      ensures var d := old(Abs());
              Valid() && |d.box| > 0 && Abs() == d.(box := d.box[..|d.box| - 1]) && m == d.box[|d.box| - 1]
    {
      msgUsed := msgUsed - 1;
      m := msgBox[msgUsed];
      assert Wins() == old(Wins()) && States() == old(States());
    }

    /** handle_message_event: pops until the box is empty. */
    method HandleMessages()
      requires Valid() && D.BoxInRange(Abs())
      modifies this`msgUsed, this`fore, this`calls, msgBox, pool
      ensures Valid() && msgUsed == 0 && Abs() == D.Drain(old(Abs()))
    {
      hide Abs, D.HandleMessage;
      var curWnd := -1;
      ghost var cur := D.NoWindow;
      BoxIs();
      M.ReverseMembers(Abs().box);
      while msgUsed > 0
        invariant Valid() && used == old(used) && -1 <= curWnd < used && |Abs().box| == msgUsed && |Abs().wins| == used
        invariant cur == if curWnd == -1 then D.NoWindow else D.Window(curWnd)
        invariant D.BoxInRange(Abs()) && D.AllInRange(|Abs().wins|, D.Reverse(Abs().box))
        invariant D.HandleAll(Abs().(box := []), cur, D.Reverse(Abs().box)) == D.Drain(old(Abs()))
        decreases msgUsed
      {
        ghost var d := Abs();
        var m := Pop();
        UnfoldReverse(d.box);
        MessageIgnoresBox(Abs(), cur, m);
        cur, curWnd := HandleMessage(m, cur, curWnd);
        BoxIs();
        M.ReverseMembers(Abs().box);
      }
      assert Abs().(box := []) == Abs();
    }

    // ---------- painting ----------

    method PaintWindow(h: int)
      requires Valid() && 0 <= h < used
      modifies this`msgUsed, this`calls, msgBox
      ensures Valid() && Abs() == D.PaintWindow(old(Abs()), h)
    {
      Invoke(h, D.Paint, if pool[h].state == D.Foreground then 1 else 0);
    }

    /** handle_paint_windows: the background windows in pool order, then the foreground one. */
    method PaintAll()
      requires Valid()
      modifies this`msgUsed, this`calls, msgBox
      ensures Valid() && Abs() == D.PaintAll(old(Abs()))
    {
      var i := 0;
      while i < used
        invariant Valid() && 0 <= i <= used
        invariant D.PaintBackground(Abs(), i) == D.PaintBackground(old(Abs()), 0)
      {
        if pool[i].state == D.Background {
          PaintWindow(i);
        }
        i := i + 1;
      }
      if fore >= 0 {
        PaintWindow(fore);
      }
    }

    // ---------- the lifecycle passes ----------

    /** The body of handle_init_event's loop. */
    method InitWindow(i: int, failing: set<int>) returns (failed: bool)
      requires Valid() && 0 <= i < used
      modifies this`msgUsed, this`calls, msgBox, pool
      ensures Valid() && used == old(used) && Wins() == old(Wins())
      ensures failed <==> D.Init in Wins()[i].hooks && i in failing
      ensures D.InitUntil(old(Abs()), i, failing) == if failed then Abs() else D.InitUntil(Abs(), i + 1, failing)
    {
      hide D.Posts, D.Invoke;
      F.InvokeKeepsFocus(Abs(), i, D.Init, 0);
      var info := pool[i].info;
      Invoke(i, D.Init, 0);
      if D.Init in info.hooks && i in failing {
        return true;
      }
      SetState(i, D.Inited);
      failed := false;
    }

    /** handle_init_event: stops at the first window whose init fails. */
    method HandleInit(failing: set<int>) returns (ok: bool)
      requires Valid()
      modifies this`msgUsed, this`calls, msgBox, pool
      ensures Valid() && used == old(used)
      ensures ok <==> forall h :: 0 <= h < used && h in failing ==> D.Init !in Wins()[h].hooks
      ensures Abs() == D.InitUntil(old(Abs()), 0, failing)
    {
      var i := 0;
      hide D.InitUntil;
      while i < used
        invariant Valid() && 0 <= i <= used == old(used) && Wins() == old(Wins())
        invariant forall h :: 0 <= h < i && h in failing ==> D.Init !in Wins()[h].hooks
        invariant D.InitUntil(Abs(), i, failing) == D.InitUntil(old(Abs()), 0, failing)
      {
        var failed := InitWindow(i, failing);
        if failed {
          return false;
        }
        i := i + 1;
      }
      InitEnds(Abs(), failing);
      ok := true;
    }

    /** handle_start_win_event and handle_post_start_win_event. */
    method HandleStart(from: D.WinState, hook: D.Hook, to: D.WinState)
      requires Valid()
      modifies this`msgUsed, this`calls, msgBox, pool
      ensures Valid() && Abs() == D.StartAll(old(Abs()), 0, from, hook, to)
    {
      var i := 0;
      while i < used
        invariant Valid() && 0 <= i <= used == old(used)
        invariant D.StartAll(Abs(), i, from, hook, to) == D.StartAll(old(Abs()), 0, from, hook, to)
      {
        if pool[i].state == from {
          Invoke(i, hook, 0);
          SetState(i, to);
        }
        i := i + 1;
      }
    }

    /** handle_destroy_windows and handle_module_exit. */
    method HandleEnd(spared: set<D.WinState>, hook: D.Hook, to: D.WinState)
      requires Valid()
      modifies this`msgUsed, this`calls, msgBox, pool
      ensures Valid() && Abs() == D.EndAll(old(Abs()), 0, spared, hook, to)
    {
      var i := 0;
      while i < used
        invariant Valid() && 0 <= i <= used == old(used)
        invariant D.EndAll(Abs(), i, spared, hook, to) == D.EndAll(old(Abs()), 0, spared, hook, to)
      {
        if pool[i].state !in spared {
          Invoke(i, hook, 0);
          SetState(i, to);
        }
        i := i + 1;
      }
    }

    // ---------- the main loop ----------

    /** One iteration for a key that does not quit. */
    method Iterate(key: int)
      requires Valid() && D.BoxInRange(D.HandleKey(Abs(), key))
      modifies this`msgUsed, this`fore, this`calls, msgBox, pool
      ensures Valid() && Abs() == D.Iterate(old(Abs()), key)
    {
      hide Abs, D.Drain, D.PaintAll, D.DispatchKey;
      var switched := SwitchKeyPress(key);
      if !switched && key > 0 {
        HandleKeyEvent(key);
      }
      HandleMessages();
      PaintAll();
    }

    /** Booting and then running the loop on a sequence of keys; q or Q ends it. */
    method RunLoop(keys: seq<int>) returns (n: int)
      requires Valid() && M.Registered(Abs())
      modifies this`msgUsed, this`fore, this`calls, msgBox, pool
      ensures Valid() && M.Between(D.Boot(old(Abs()))) && Abs() == M.Loop(D.Boot(old(Abs())), keys)
    {
      hide Abs, D.Iterate, D.HandleKey, D.Boot;
      M.BootRequestsScan(Abs());
      BootIs(Abs());
      F.InitWithoutFailure(Abs(), 0, {});
      var ok := HandleInit({});
      HandleStart(D.Inited, D.StartWin, D.Started);
      HandleStart(D.Started, D.PostStartWin, D.Background);
      n := 0;
      while n < |keys|
        invariant Valid() && 0 <= n <= |keys| && M.Between(Abs()) && M.Between(D.Boot(old(Abs())))
        invariant M.Loop(Abs(), keys[n..]) == M.Loop(D.Boot(old(Abs())), keys)
      {
        if keys[n] == 'q' as int || keys[n] == 'Q' as int {
          return;
        }
        M.IterationKeepsBetween(Abs(), keys[n]);
        Iterate(keys[n]);
        n := n + 1;
      }
    }

    /** main, from the constructors' pool to the end: boot, loop, destroy, exit. */
    method RunToExit(keys: seq<int>)
      requires Valid() && M.Registered(Abs())
      modifies this`msgUsed, this`fore, this`calls, msgBox, pool
      ensures Valid() && M.Between(D.Boot(old(Abs())))
      ensures Abs() == D.Shutdown(M.Loop(D.Boot(old(Abs())), keys))
    {
      var n := RunLoop(keys);
      hide Abs, D.EndAll, D.Boot, M.Loop, M.Between, M.Registered;
      HandleEnd({D.Destroyed, D.Exited}, D.DestroyWin, D.Destroyed);
      HandleEnd({D.Exited}, D.ModuleExit, D.Exited);
    }

    lemma BoxIs()
      requires Valid()
      ensures Abs().box == msgBox[..msgUsed] && |Abs().wins| == used
    {}
  }

  lemma UnfoldReverse(ms: seq<D.Message>)
    requires ms != []
    ensures D.Reverse(ms) == [ms[|ms| - 1]] + D.Reverse(ms[..|ms| - 1])
  {}

  lemma BootIs(d: D.Desk)
    requires D.WellFormed(d)
    ensures D.Boot(d) == D.StartAll(D.StartAll(D.InitAll(d, 0), 0, D.Inited, D.StartWin, D.Started), 0,
                                    D.Started, D.PostStartWin, D.Background)
  {}

  /** Handling a message does not look at what is left in the box. */
  lemma MessageIgnoresBox(d: D.Desk, cur: D.Current, m: D.Message)
    requires D.WellFormed(d) && D.CurrentInRange(d, cur) && D.InRange(|d.wins|, m)
    ensures var (d', cur') := D.HandleMessage(d, cur, m);
            D.HandleMessage(d.(box := []), cur, m) == (d'.(box := []), cur')
  {}

  lemma InitEnds(d: D.Desk, failing: set<int>)
    requires D.WellFormed(d)
    ensures D.InitUntil(d, |d.wins|, failing) == d
  {}
}
