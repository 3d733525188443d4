/**
 The whole chain: keys and focus changes drive PCI-SCAN, PCI-LIST and PCI-DEV through the window
 manager, and PCI-DEV's requests drive the driver. The screens are played along the history of
 callbacks the window manager makes.
 */
module EndToEnd {
  import opened AddressCodec
  import opened CachedWindow
  import opened ConfigStore
  import opened PcixDriver
  import Words
  import D = Desk
  import N = Enumeration
  import F = FocusTheorems
  import M = MainLoop
  import P = PciScreens

  /** The three PCI modules are linked in, and PCI-DEV has both focus callbacks. */
  predicate Linked(wins: seq<D.WindowInfo>) {
    M.LinkedIn(wins) && F.HasFocusHooks(wins[M.Dev(wins)])
  }

  /** What one callback does to the PCI screens, and the requests it issues after those in ops. `found` is
      what a scan finds after such requests: a later scan may find another list. */
  function Effect(wins: seq<D.WindowInfo>, found: seq<Op> -> seq<P.Device>, s: P.Pci, ops: seq<Op>, c: D.Call)
    : (P.Pci, seq<Op>)
  {
    if c.handle == M.Dev(wins) && c.hook.KeyPress? then P.DevKey(s, c.arg)
    else if c.handle == M.Dev(wins) && c.hook.LostFocus? then (P.DevLostFocus(s), [])
    else if c.handle == M.Dev(wins) && c.hook.Paint? && c.arg == 1 then (s, [P.PaintRequest(s)])
    else if c.handle == M.List(wins) && c.hook.KeyPress? then (P.ListKey(s, c.arg), [])
    else if c.handle == M.Scan(wins) && c.hook.Paint? && c.arg == 1 then (P.Rescan(s, found(ops)), [])
    else (s, [])
  }

  function Play(wins: seq<D.WindowInfo>, found: seq<Op> -> seq<P.Device>, calls: seq<D.Call>): (P.Pci, seq<Op>) {
    if calls == [] then (P.Start(), [])
    else
      var (s, ops) := Play(wins, found, calls[..|calls| - 1]);
      var (s', more) := Effect(wins, found, s, ops, calls[|calls| - 1]);
      (s', ops + more)
  }

  function Screens(found: seq<Op> -> seq<P.Device>, d: D.Desk): P.Pci {
    Play(d.wins, found, d.calls).0
  }

  function Issued(found: seq<Op> -> seq<P.Device>, d: D.Desk): seq<Op> {
    Play(d.wins, found, d.calls).1
  }

  predicate AllGood(p: Platform, ops: seq<Op>) {
    forall op :: op in ops ==> GoodOp(p, op)
  }

  // ---------- the invariant ----------

  ghost predicate Setting(p: Platform, found: seq<Op> -> seq<P.Device>) {
    GoodPlatform(p) && forall ops :: P.GoodList(p, found(ops))
  }

  /** The screens are consistent, the requests so far were good, and PCI-DEV is idle whenever it is not
      in front: there is no deeper page to be left over for a device without an MMIO base. */
  predicate Consistent(p: Platform, found: seq<Op> -> seq<P.Device>, d: D.Desk) {
    var s := Screens(found, d);
    && P.Inv(p, s) && AllGood(p, Issued(found, d))
    && (d.fore != M.Dev(d.wins) ==> P.Idle(s))
  }

  /** Before the first scan nobody is in front and PCI-SCAN's request is in the box. */
  predicate ScanComesFirst(found: seq<Op> -> seq<P.Device>, d: D.Desk) {
    Screens(found, d).list == [] ==> d.fore == -1 && d.box == [D.NeedFocus(M.Scan(d.wins))]
  }

  lemma PlaySnoc(wins: seq<D.WindowInfo>, found: seq<Op> -> seq<P.Device>, calls: seq<D.Call>, c: D.Call)
    ensures var (s, ops) := Play(wins, found, calls);
            var (s', more) := Effect(wins, found, s, ops, c);
            Play(wins, found, calls + [c]) == (s', ops + more)
  {
    assert (calls + [c])[..|calls|] == calls;
  }

  lemma AllGoodConcat(p: Platform, ops: seq<Op>, more: seq<Op>)
    requires AllGood(p, ops) && AllGood(p, more)
    ensures AllGood(p, ops + more)
  {}

  /** Calling a hook, seen from the screens. */
  lemma InvokePlays(found: seq<Op> -> seq<P.Device>, d: D.Desk, h: int, hook: D.Hook, arg: int)
    requires D.IsHandle(d, h)
    ensures var d' := D.Invoke(d, h, hook, arg);
            var (s', more) := Effect(d.wins, found, Screens(found, d), Issued(found, d), D.Call(hook, h, arg));
            && d'.wins == d.wins
            && (if hook in d.wins[h].hooks
                then Screens(found, d') == s' && Issued(found, d') == Issued(found, d) + more
                else Screens(found, d') == Screens(found, d) && Issued(found, d') == Issued(found, d))
  {
    hide Play, Effect;
    F.InvokeCalls(d, h, hook, arg);
    PlaySnoc(d.wins, found, d.calls, D.Call(hook, h, arg));
  }

  lemma SameScreens(found: seq<Op> -> seq<P.Device>, d: D.Desk, d': D.Desk)
    requires d'.wins == d.wins && d'.calls == d.calls
    ensures Screens(found, d') == Screens(found, d) && Issued(found, d') == Issued(found, d)
  {}

  // ---------- callbacks that do nothing to the screens ----------

  predicate Silent(wins: seq<D.WindowInfo>, h: int, hook: D.Hook, arg: int) {
    match hook
    case KeyPress => false
    case LostFocus => h != M.Dev(wins)
    case Paint => arg == 0 || (h != M.Dev(wins) && h != M.Scan(wins))
    case _ => true
  }

  lemma SilentInvoke(p: Platform, found: seq<Op> -> seq<P.Device>, d: D.Desk, h: int, hook: D.Hook, arg: int)
    requires D.WellFormed(d) && D.IsHandle(d, h) && Silent(d.wins, h, hook, arg)
    ensures var d' := D.Invoke(d, h, hook, arg);
            && Screens(found, d') == Screens(found, d) && Issued(found, d') == Issued(found, d)
            && d'.wins == d.wins && d'.fore == d.fore && D.WellFormed(d')
  {
    hide Play;
    InvokePlays(found, d, h, hook, arg);
    F.InvokeKeepsFocus(d, h, hook, arg);
    assert Issued(found, d) + [] == Issued(found, d);
  }

  // ---------- keys ----------

  lemma KeyKeepsConsistent(p: Platform, found: seq<Op> -> seq<P.Device>, d: D.Desk, key: int)
    requires Setting(p, found) && Linked(d.wins) && M.Between(d)
    requires Consistent(p, found, d) && ScanComesFirst(found, d)
    ensures var d' := D.HandleKey(d, key);
            Consistent(p, found, d') && Screens(found, d').list == Screens(found, d).list
            && (d.fore == -1 ==> Issued(found, d') == Issued(found, d))
  {
    F.DispatchesToForeground(d);
    var h := d.fore;
    var d' := D.HandleKey(d, key);
    M.KeyPostsOne(d, key);
    if D.Shortcut(d, key, 0) >= 0 || key <= 0 || h < 0 {
      SameScreens(found, d, d');
    } else {
      InvokePlays(found, d, h, D.KeyPress, key);
      var s := Screens(found, d);
      M.ListExists(d.wins);
      hide Play, P.Inv, P.Idle, P.DevKey, P.ListKey, GoodOp, D.HandleKey, D.Invoke;
      if h == M.Dev(d.wins) {
        P.DevKeyKeepsInv(p, s, key);
        DevKeyIssuesGood(p, s, key);
        AllGoodConcat(p, Issued(found, d), P.DevKey(s, key).1);
      } else if h == M.List(d.wins) {
        P.ListKeyKeepsInv(p, s, key);
        assert Issued(found, d) + [] == Issued(found, d);
      } else {
        assert Issued(found, d) + [] == Issued(found, d);
      }
    }
  }

  lemma DevKeyIssuesGood(p: Platform, s: P.Pci, key: int)
    requires GoodPlatform(p) && P.Inv(p, s)
    ensures AllGood(p, P.DevKey(s, key).1)
  {
    hide GoodOp, P.Inv;
    P.WriteIsGood(p, s);
  }

  // ---------- messages ----------

  /** The focus changes hands: PCI-DEV is idle afterwards, whether it lost the focus or gained it. */
  lemma TransferKeepsConsistent(p: Platform, found: seq<Op> -> seq<P.Device>, d: D.Desk, cur: D.Current, h: int)
    requires D.WellFormed(d) && D.CurrentInRange(d, cur) && D.IsHandle(d, h) && Linked(d.wins)
    requires Consistent(p, found, d) && (if d.fore >= 0 then cur == D.Window(d.fore) else cur.NoWindow?)
    ensures var d' := D.GiveFocus(D.LoseFocus(d, cur), h);
            Consistent(p, found, d') && Screens(found, d').list == Screens(found, d).list
            && Issued(found, d') == Issued(found, d)
  {
    hide Play, P.Inv, P.Idle, GoodOp, D.Posts, P.DevLostFocus, D.Invoke;
    M.ListExists(d.wins);
    var s := Screens(found, d);
    var d1 := D.LoseFocus(d, cur);
    if cur.Window? {
      var lost := D.Invoke(d, cur.h, D.LostFocus, 0);
      F.InvokeKeepsFocus(d, cur.h, D.LostFocus, 0);
      SameScreens(found, lost, d1);
      if cur.h == M.Dev(d.wins) {
        InvokePlays(found, d, cur.h, D.LostFocus, 0);
        P.LostFocusKeepsInv(p, s);
        assert Issued(found, d) + [] == Issued(found, d);
      } else {
        SilentInvoke(p, found, d, cur.h, D.LostFocus, 0);
      }
    }
    assert P.Idle(Screens(found, d1)) && P.Inv(p, Screens(found, d1));
    var d2 := D.SetState(d1.(fore := h), h, D.Foreground);
    SameScreens(found, d1, d2);
    SilentInvoke(p, found, d2, h, D.GetFocus, 0);
  }

  lemma MessageKeepsConsistent(p: Platform, found: seq<Op> -> seq<P.Device>, d: D.Desk, cur: D.Current, m: D.Message)
    requires D.WellFormed(d) && D.CurrentInRange(d, cur) && D.InRange(|d.wins|, m) && Linked(d.wins)
    requires F.CurrentOnlyWithFocus(d, cur) && F.FocusOnly([m]) && Consistent(p, found, d)
    ensures var d' := D.HandleMessage(d, cur, m).0;
            Consistent(p, found, d') && Screens(found, d').list == Screens(found, d).list
            && Issued(found, d') == Issued(found, d)
  {
    hide Consistent, Linked, D.GiveFocus, D.LoseFocus, Screens;
    assert m in [m];
    var cur' := D.NowCurrent(d, cur);
    match m
    case NeedFocus(s) => TransferKeepsConsistent(p, found, d, cur', s);
    case XferControl(s, t) => TransferKeepsConsistent(p, found, d, cur', t);
  }

  lemma {:induction false} DrainKeepsConsistent(p: Platform, found: seq<Op> -> seq<P.Device>, d: D.Desk,
                                             cur: D.Current, ms: seq<D.Message>)
    requires D.WellFormed(d) && D.CurrentInRange(d, cur) && D.AllInRange(|d.wins|, ms) && Linked(d.wins)
    requires F.CurrentOnlyWithFocus(d, cur) && F.FocusOnly(ms) && F.AllToldAlternately(d) && Consistent(p, found, d)
    ensures var d' := D.HandleAll(d, cur, ms);
            Consistent(p, found, d') && Screens(found, d').list == Screens(found, d).list
            && Issued(found, d') == Issued(found, d)
    decreases |ms|
  {
    if ms != [] {
      hide F.AllToldAlternately, D.HandleMessage, Consistent, Linked, Screens;
      assert ms[0] in ms;
      F.MessageKeepsAlternation(d, cur, ms[0]);
      MessageKeepsConsistent(p, found, d, cur, ms[0]);
      var (d1, cur1) := D.HandleMessage(d, cur, ms[0]);
      DrainKeepsConsistent(p, found, d1, cur1, ms[1..]);
    }
  }

  // ---------- painting ----------

  lemma {:induction false} BackgroundPaintIsSilent(p: Platform, found: seq<Op> -> seq<P.Device>, d: D.Desk, i: nat)
    requires D.WellFormed(d) && i <= |d.wins|
    ensures var d' := D.PaintBackground(d, i);
            Screens(found, d') == Screens(found, d) && Issued(found, d') == Issued(found, d)
    decreases |d.wins| - i
  {
    if i < |d.wins| {
      hide Screens, Issued;
      if d.states[i].Background? {
        SilentInvoke(p, found, d, i, D.Paint, 0);
        F.InvokeKeepsFocus(d, i, D.Paint, 0);
        BackgroundPaintIsSilent(p, found, D.PaintWindow(d, i), i + 1);
      } else {
        BackgroundPaintIsSilent(p, found, d, i + 1);
      }
    }
  }

  /** Painting: PCI-DEV issues a bulk read of its page, PCI-SCAN fills the list. */
  lemma PaintKeepsConsistent(p: Platform, found: seq<Op> -> seq<P.Device>, d: D.Desk)
    requires Setting(p, found) && Linked(d.wins) && F.OneForeground(d) && Consistent(p, found, d)
    ensures var s, s' := Screens(found, d), Screens(found, D.PaintAll(d));
            && (s'.list != [] || d.fore != M.Scan(d.wins) ==> Consistent(p, found, D.PaintAll(d)))
            && s'.list == if d.fore == M.Scan(d.wins) then found(Issued(found, d)) else s.list
  {
    assert GoodPlatform(p);
    hide Play, P.Inv, P.Idle, GoodOp, P.PaintRequest, Setting;
    M.ListExists(d.wins);
    BackgroundPaintIsSilent(p, found, d, 0);
    var d1 := D.PaintBackground(d, 0);
    var s := Screens(found, d);
    if d1.fore >= 0 {
      assert d1.states[d1.fore].Foreground?;
      InvokePlays(found, d1, d1.fore, D.Paint, 1);
      F.InvokeKeepsFocus(d1, d1.fore, D.Paint, 1);
      if d1.fore == M.Dev(d.wins) {
        P.PaintIsGood(p, s);
        AllGoodConcat(p, Issued(found, d), [P.PaintRequest(s)]);
      } else {
        assert Issued(found, d) + [] == Issued(found, d);
        if d1.fore == M.Scan(d.wins) {
          ScanKeepsInv(p, found, s, Issued(found, d));
        }
      }
    }
  }

  lemma ScanKeepsInv(p: Platform, found: seq<Op> -> seq<P.Device>, s: P.Pci, ops: seq<Op>)
    requires Setting(p, found) && P.Inv(p, s) && P.Idle(s)
    ensures var s' := P.Rescan(s, found(ops));
            s'.list == found(ops) && (found(ops) != [] ==> P.Inv(p, s') && P.Idle(s'))
  {
    if found(ops) != [] {
      P.RescanKeepsInv(p, s, found(ops));
    }
  }

  // ---------- runs ----------

  predicate Good(p: Platform, found: seq<Op> -> seq<P.Device>, d: D.Desk) {
    M.Between(d) && Linked(d.wins) && Consistent(p, found, d) && ScanComesFirst(found, d)
  }

  /** The screens after the drain of an iteration, before it paints. */
  lemma DrainKeepsScreens(p: Platform, found: seq<Op> -> seq<P.Device>, d: D.Desk, key: int)
    requires Setting(p, found) && Good(p, found, d)
    ensures D.WellFormed(D.HandleKey(d, key)) && D.BoxInRange(D.HandleKey(d, key))
    ensures var d2 := D.Drain(D.HandleKey(d, key));
            && F.OneForeground(d2) && d2.wins == d.wins && Consistent(p, found, d2)
            && Screens(found, d2).list == Screens(found, d).list
            && (d.fore == -1 ==> Issued(found, d2) == Issued(found, d))
            && (Screens(found, d).list == [] ==> d2.fore == M.Scan(d.wins))
  {
    hide P.Inv, P.Idle, Linked, D.HandleKey, D.Drain, F.AllToldAlternately, F.OneForeground;
    hide Consistent, Screens, Issued, Setting;
    M.BetweenIsWellFormed(d);
    M.KeyPostsOne(d, key);
    KeyKeepsConsistent(p, found, d, key);
    var d1 := D.HandleKey(d, key);
    M.SameFocus(d, d1);
    M.DrainedBetween(d1);
    DrainedConsistent(p, found, d1);
    if Screens(found, d).list == [] {
      M.FirstDrainFrontsScan(d, key);
    }
  }

  lemma IterationKeepsGood(p: Platform, found: seq<Op> -> seq<P.Device>, d: D.Desk, key: int)
    requires Setting(p, found) && Good(p, found, d)
    ensures D.BoxInRange(D.HandleKey(d, key))
    ensures Screens(found, D.Iterate(d, key)).list != [] ==> Good(p, found, D.Iterate(d, key))
  {
    hide P.Inv, P.Idle, Linked, D.HandleKey, D.Drain, D.PaintAll, F.AllToldAlternately, F.OneForeground;
    hide Consistent, Screens, Issued, Setting;
    M.BetweenIsWellFormed(d);
    M.IterationKeepsBetween(d, key);
    DrainKeepsScreens(p, found, d, key);
    PaintKeepsConsistent(p, found, D.Drain(D.HandleKey(d, key)));
  }

  /** Only a scan changes the list. */
  lemma IterationList(p: Platform, found: seq<Op> -> seq<P.Device>, d: D.Desk, key: int)
    requires Setting(p, found) && Good(p, found, d)
    ensures D.WellFormed(d) && D.WellFormed(D.HandleKey(d, key)) && D.BoxInRange(D.HandleKey(d, key))
    ensures D.Drain(D.HandleKey(d, key)).fore != M.Scan(d.wins)
            ==> Screens(found, D.Iterate(d, key)).list == Screens(found, d).list
    ensures d.fore == -1 && D.Drain(D.HandleKey(d, key)).fore == M.Scan(d.wins)
            ==> Screens(found, D.Iterate(d, key)).list == found(Issued(found, d))
  {
    hide P.Inv, P.Idle, Linked, D.HandleKey, D.Drain, D.PaintAll, F.AllToldAlternately, F.OneForeground;
    hide Consistent, Screens, Issued, Setting;
    M.BetweenIsWellFormed(d);
    DrainKeepsScreens(p, found, d, key);
    PaintKeepsConsistent(p, found, D.Drain(D.HandleKey(d, key)));
  }

  lemma DrainedConsistent(p: Platform, found: seq<Op> -> seq<P.Device>, d: D.Desk)
    requires D.WellFormed(d) && D.BoxInRange(d) && Linked(d.wins)
    requires F.FocusOnly(d.box) && F.AllToldAlternately(d) && Consistent(p, found, d)
    ensures var d' := D.Drain(d);
            Consistent(p, found, d') && Screens(found, d').list == Screens(found, d).list
            && Issued(found, d') == Issued(found, d)
  {
    var d0 := d.(box := []);
    M.ReverseMembers(d.box);
    M.SameHistory(d, d0);
    SameScreens(found, d, d0);
    hide P.Inv, P.Idle, GoodOp, D.HandleAll, F.AllToldAlternately, Linked, Play;
    DrainKeepsConsistent(p, found, d0, D.NoWindow, D.Reverse(d.box));
  }

  /** Every scan of the run finds at least one function. */
  predicate EveryScanFinds(found: seq<Op> -> seq<P.Device>, d: D.Desk, keys: seq<int>)
    requires M.Between(d)
    decreases |keys|
  {
    keys != [] && !M.Quits(keys[0]) ==>
      (M.BetweenIsWellFormed(d);
       M.IterationKeepsBetween(d, keys[0]);
       Screens(found, D.Iterate(d, keys[0])).list != [] && EveryScanFinds(found, D.Iterate(d, keys[0]), keys[1..]))
  }

  predicate EveryScanOfRunFinds(found: seq<Op> -> seq<P.Device>, d: D.Desk, keys: seq<int>)
    requires M.Registered(d)
  {
    M.BootRequestsScan(d);
    EveryScanFinds(found, D.Boot(d), keys)
  }

  lemma {:induction false} LoopKeepsGood(p: Platform, found: seq<Op> -> seq<P.Device>, d: D.Desk, keys: seq<int>)
    requires Setting(p, found) && Good(p, found, d) && M.Between(d) && EveryScanFinds(found, d, keys)
    ensures Good(p, found, M.Loop(d, keys))
    decreases |keys|
  {
    if keys != [] && !M.Quits(keys[0]) {
      hide Setting, Good, M.Between, D.Iterate, D.HandleKey, Screens;
      IterationKeepsGood(p, found, d, keys[0]);
      M.IterationKeepsBetween(d, keys[0]);
      LoopKeepsGood(p, found, D.Iterate(d, keys[0]), keys[1..]);
    }
  }

  lemma {:induction false} QuietPlay(wins: seq<D.WindowInfo>, found: seq<Op> -> seq<P.Device>, calls: seq<D.Call>)
    requires forall c :: c in calls ==> c.hook.Init? || c.hook.StartWin? || c.hook.PostStartWin?
    ensures Play(wins, found, calls) == (P.Start(), [])
  {
    if calls != [] {
      assert calls[|calls| - 1] in calls;
      QuietPlay(wins, found, calls[..|calls| - 1]);
      var none: seq<Op> := [];
      assert none + none == none;
    }
  }

  lemma BootIsGood(p: Platform, found: seq<Op> -> seq<P.Device>, d: D.Desk)
    requires Setting(p, found) && M.Registered(d) && Linked(d.wins)
    ensures Good(p, found, D.Boot(d)) && Issued(found, D.Boot(d)) == []
  {
    M.BootRequestsScan(d);
    M.BootIsQuiet(d);
    hide D.Boot, M.Between, Linked, Setting;
    QuietPlay(d.wins, found, D.Boot(d).calls);
  }

  /** In every run of keys from a booted desk in which the scans find something, every request PCI-DEV issues
      meets the driver's preconditions: bulk reads at 256-aligned registers, word and dword writes naturally
      aligned, registers below 0x1000, and below 0x100 for a device without an MMIO base. */
  lemma EveryRequestIsGood(p: Platform, found: seq<Op> -> seq<P.Device>, d: D.Desk, keys: seq<int>)
    requires Setting(p, found) && M.Registered(d) && Linked(d.wins) && EveryScanOfRunFinds(found, d, keys)
    ensures M.Between(D.Boot(d))
    ensures AllGood(p, Issued(found, M.Loop(D.Boot(d), keys)))
  {
    M.BootRequestsScan(d);
    BootIsGood(p, found, d);
    hide M.Registered, D.Boot, Issued, AllGood, Setting, Linked, M.Between, EveryScanFinds;
    LoopKeepsGood(p, found, D.Boot(d), keys);
  }

  /** Hence the driver, given those requests in that order, reads and writes one map of bytes. */
  lemma ClientSeesOneByteMap(p: Platform, found: seq<Op> -> seq<P.Device>, d: D.Desk, keys: seq<int>, hw: DriverState)
    requires Setting(p, found) && M.Registered(d) && Linked(d.wins) && EveryScanOfRunFinds(found, d, keys) && Valid(hw)
    ensures M.Between(D.Boot(d))
    ensures var ops := Issued(found, M.Loop(D.Boot(d), keys));
            var (hw', answers) := Run(p, hw, ops);
            var (b', answers') := MeaningOfRun(Words.View(hw.config), ops);
            Agrees(hw, hw', b') && answers == answers'
  {
    assert GoodPlatform(p);
    hide D.Boot, Issued, Linked, M.Between, Run, MeaningOfRun, Agrees, ServedOp, Valid, Setting, EveryScanOfRunFinds;
    EveryRequestIsGood(p, found, d, keys);
    OneByteMap(p, hw, Issued(found, M.Loop(D.Boot(d), keys)));
  }

  // ---------- runs with one scan ----------

  lemma {:induction false} NoScanNoLoss(p: Platform, found: seq<Op> -> seq<P.Device>, d: D.Desk, keys: seq<int>)
    requires Setting(p, found) && Good(p, found, d) && M.Between(d) && M.Scanned(d) && Screens(found, d).list != []
    requires !M.SelectsScan(d, keys)
    ensures EveryScanFinds(found, d, keys)
    decreases |keys|
  {
    if keys != [] && !M.Quits(keys[0]) {
      hide Setting, Good, M.Between, M.Scanned, D.Iterate, D.HandleKey, D.Drain, Screens, D.Shortcut;
      M.BetweenIsWellFormed(d);
      M.IterationKeepsBetween(d, keys[0]);
      M.ScannedStaysIff(d, keys[0]);
      M.NotInFrontAgain(d, keys[0]);
      IterationKeepsGood(p, found, d, keys[0]);
      IterationList(p, found, d, keys[0]);
      NoScanNoLoss(p, found, D.Iterate(d, keys[0]), keys[1..]);
    }
  }

  /** If the scan of the first iteration finds something and no key after the first is 0, every scan of the run
      finds something: there is only that one. */
  lemma OneScanFinds(p: Platform, found: seq<Op> -> seq<P.Device>, d: D.Desk, keys: seq<int>)
    requires Setting(p, found) && M.Registered(d) && Linked(d.wins) && found([]) != []
    requires forall i :: 1 <= i < |keys| ==> keys[i] != 0
    ensures EveryScanOfRunFinds(found, d, keys)
  {
    M.BootRequestsScan(d);
    BootIsGood(p, found, d);
    if keys != [] && !M.Quits(keys[0]) {
      var d0 := D.Boot(d);
      hide Setting, Good, D.Boot, D.Iterate, D.HandleKey, D.Drain, Screens, Issued, M.Registered;
      M.BetweenIsWellFormed(d0);
      M.IterationKeepsBetween(d0, keys[0]);
      M.FirstIterationScans(d0, keys[0]);
      M.FirstDrainFrontsScan(d0, keys[0]);
      IterationKeepsGood(p, found, d0, keys[0]);
      IterationList(p, found, d0, keys[0]);
      hide M.Between, M.Scanned;
      M.NoKeyZeroSelectsScan(D.Iterate(d0, keys[0]), keys[1..]);
      NoScanNoLoss(p, found, D.Iterate(d0, keys[0]), keys[1..]);
    }
  }

  // ---------- the lists the scanner delivers ----------

  /** What scanning the machine finds once the requests in ops have been served. */
  function ScanAfter(m: N.Machine, maxBus: nat, ops: seq<Op>): seq<P.Device>
    requires maxBus <= 255
  {
    N.Devices(N.FirstOf(N.FoundBelow(m.(hw := Run(m.platform, m.hw, ops).0), maxBus * 0x100)))
  }

  function Scans(m: N.Machine, maxBus: nat): seq<Op> -> seq<P.Device>
    requires maxBus <= 255
  {
    ops => ScanAfter(m, maxBus, ops)
  }

  /** A later scan sees what was written: as long as the array is not full, it finds a function exactly if the byte
      map that the requests leave has a vendor id there. */
  lemma LaterScanSeesWrites(m: N.Machine, maxBus: nat, ops: seq<Op>, bus: nat, dev: nat, fun: nat)
    requires GoodPlatform(m.platform) && Valid(m.hw) && AllGood(m.platform, ops) && maxBus <= 255
    requires bus < maxBus && dev < 32 && fun < 8 && |ScanAfter(m, maxBus, ops)| < N.MAX_PCIBUF
    ensures N.Names(ScanAfter(m, maxBus, ops), bus, dev, fun)
            <==> var b := MeaningOfRun(Words.View(m.hw.config), ops).0;
                 Words.ReadBytes(Words.Word, b, Key(bus, dev, fun, 0)) != 0xffff
  {
    hide N.FoundBelow, N.FirstOf, N.Names, N.Present, N.EntryAt, Run, MeaningOfRun, Words.ReadBytes, Words.View;
    hide ServedOp, GoodPlatform, Valid, Key;
    var m' := m.(hw := Run(m.platform, m.hw, ops).0);
    OneByteMap(m.platform, m.hw, ops);
    N.IdsAreConfigBytes(m', bus, dev, fun);
    N.ScanNamesPresent(m', maxBus, bus, dev, fun);
  }

  lemma ScansGiveSetting(m: N.Machine, q: Platform, maxBus: nat)
    requires N.SameGuard(m, q) && maxBus <= 255
    ensures Setting(q, Scans(m, maxBus))
  {
    hide N.FoundBelow, N.FirstOf, P.GoodList, Run;
    forall ops: seq<Op>
      ensures P.GoodList(q, Scans(m, maxBus)(ops))
    {
      N.ScanDeliversGoodList(m.(hw := Run(m.platform, m.hw, ops).0), q, maxBus);
    }
  }

  /** From the scan to the bytes, on any machine whose scans find something, wherever its RAM ends and
      whatever keys are pressed: every request PCI-DEV issues is a good one, and what it reads and writes is
      one map of bytes. Each scan sees the effect of what was written before it. */
  lemma FromScanToByteMap(m: N.Machine, maxBus: nat, d: D.Desk, keys: seq<int>)
    requires GoodPlatform(m.platform) && (m.mmioBase == 0 || m.mmioBase == m.platform.ecam) && maxBus <= 255
    requires M.Registered(d) && Linked(d.wins) && Valid(m.hw) && EveryScanOfRunFinds(Scans(m, maxBus), d, keys)
    ensures M.Between(D.Boot(d))
    ensures var ops := Issued(Scans(m, maxBus), M.Loop(D.Boot(d), keys));
            var (hw', answers) := Run(m.platform, m.hw, ops);
            var (b', answers') := MeaningOfRun(Words.View(m.hw.config), ops);
            AllGood(m.platform, ops) && Agrees(m.hw, hw', b') && answers == answers'
  {
    ScansGiveSetting(m, m.platform, maxBus);
    hide *;
    EveryRequestIsGood(m.platform, Scans(m, maxBus), d, keys);
    ClientSeesOneByteMap(m.platform, Scans(m, maxBus), d, keys, m.hw);
  }

  /** No base, or a 256-aligned one below 4 GiB, found or given by hand: nothing says that it is decoded. */
  predicate AlignedBase(m: N.Machine) {
    m.mmioBase == 0 || (m.mmioBase <= 0x1_0000_0000 - SPACE && m.mmioBase % MASSBUF == 0)
  }

  /** The same platform, if it decoded the base. */
  function Decoding(m: N.Machine): Platform {
    m.platform.(ecam := if AlignedBase(m) && m.mmioBase != 0 then m.mmioBase else SPACE)
  }

  lemma DecodingHasSameGuard(m: N.Machine)
    requires AlignedBase(m)
    ensures N.SameGuard(m, Decoding(m))
  {}

  /** Whatever aligned base the scans are given, decoded or not: every request PCI-DEV issues passes the guard
      and is aligned, and the driver answers and stores as if it mapped each request's own address afresh. */
  lemma AnyBaseIsServedFresh(m: N.Machine, maxBus: nat, d: D.Desk, keys: seq<int>)
    requires AlignedBase(m) && maxBus <= 255
    requires M.Registered(d) && Linked(d.wins) && Valid(m.hw) && EveryScanOfRunFinds(Scans(m, maxBus), d, keys)
    ensures M.Between(D.Boot(d))
    ensures var ops := Issued(Scans(m, maxBus), M.Loop(D.Boot(d), keys));
            var (hw', answers) := Run(m.platform, m.hw, ops);
            var (t', answers') := RunUncached(m.platform, m.hw, ops);
            AllGood(Decoding(m), ops) && Valid(hw') && Fresh(hw') == Fresh(t') && answers == answers'
  {
    var q := Decoding(m);
    DecodingHasSameGuard(m);
    assert GoodPlatform(q);
    hide Valid, Fresh, Decoding, AlignedBase, Linked, M.Registered, M.Between, D.Boot, Run, RunUncached, Issued;
    hide EveryScanOfRunFinds, GoodOp, BulkAtWindow, GoodPlatform, N.SameGuard;
    ScansGiveSetting(m, q, maxBus);
    hide Setting;
    EveryRequestIsGood(q, Scans(m, maxBus), d, keys);
    var ops := Issued(Scans(m, maxBus), M.Loop(D.Boot(d), keys));
    forall op | op in ops
      ensures BulkAtWindow(op)
    {
      GoodOpsKeepWindow(q, op);
    }
    CacheIsInvisible(m.platform, m.hw, m.hw, ops);
  }

  /** With at least one function at boot and no key code 0 after the first key the scans do find something. */
  lemma PresentFunctionIsFound(m: N.Machine, maxBus: nat, k: nat, d: D.Desk, keys: seq<int>)
    requires AlignedBase(m)
    requires k < maxBus * 0x100 && maxBus <= 255 && N.PresentAt(m, k)
    requires M.Registered(d) && Linked(d.wins) && forall i :: 1 <= i < |keys| ==> keys[i] != 0
    ensures EveryScanOfRunFinds(Scans(m, maxBus), d, keys)
  {
    DecodingHasSameGuard(m);
    ScansGiveSetting(m, Decoding(m), maxBus);
    N.ListIsComplete(m, maxBus * 0x100, k);
    assert Run(m.platform, m.hw, []).0 == m.hw;
    hide N.FoundBelow, N.PresentAt, N.EntryOf, Run, Setting, EveryScanOfRunFinds, M.Registered;
    assert m.(hw := m.hw) == m;
    OneScanFinds(Decoding(m), Scans(m, maxBus), d, keys);
  }
}
