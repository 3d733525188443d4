/**
 Whole runs of the main loop with lfdk's modules: the box never overflows, the focus theorems
 hold throughout, and PCI-SCAN scans exactly once.
 */
module MainLoop {
  import opened Desk
  import opened FocusTheorems

  // ---------- runs ----------

  predicate Quits(key: int) {
    key == 'q' as int || key == 'Q' as int
  }

  function Scan(wins: seq<WindowInfo>): int { Find(wins, "PCI-SCAN") }
  function List(wins: seq<WindowInfo>): int { Find(wins, "PCI-LIST") }
  function Dev(wins: seq<WindowInfo>): int { Find(wins, "PCI-DEV") }

  /** The modules are linked in, under names used once; PCI-SCAN has no shortcut key and no key_press. */
  predicate LinkedIn(wins: seq<WindowInfo>) {
    && Scan(wins) >= 0 && List(wins) >= 0 && Dev(wins) >= 0
    && (forall i, j :: 0 <= i < j < |wins| ==> wins[i].name != wins[j].name)
    && var scan := wins[Scan(wins)];
       scan.shortKey == 0 && StartWin in scan.hooks && Paint in scan.hooks && KeyPress !in scan.hooks
  }

  /** What holds between two iterations. */
  predicate Between(d: Desk) {
    && OneForeground(d) && LinkedIn(d.wins)
    && AllToldAlternately(d) && FocusOnly(d.box) && BoxInRange(d) && |d.box| <= 1
  }

  lemma {:induction false} ReverseMembers(ms: seq<Message>)
    ensures forall m :: m in Reverse(ms) <==> m in ms
  {
    if ms != [] {
      ReverseMembers(ms[..|ms| - 1]);
      assert ms == ms[..|ms| - 1] + [ms[|ms| - 1]];
    }
  }

  lemma PostsInRange(d: Desk, h: int, hook: Hook, arg: int)
    requires LinkedIn(d.wins) && IsHandle(d, h) && BoxInRange(d) && FocusOnly(d.box)
    ensures var d' := Posts(d, h, hook, arg);
            d'.wins == d.wins && BoxInRange(d') && FocusOnly(d'.box) && |d'.box| <= |d.box| + 1
  {}

  lemma InvokeInRange(d: Desk, h: int, hook: Hook, arg: int)
    requires LinkedIn(d.wins) && IsHandle(d, h) && BoxInRange(d) && FocusOnly(d.box)
    ensures var d' := Invoke(d, h, hook, arg);
            d'.wins == d.wins && BoxInRange(d') && FocusOnly(d'.box) && |d'.box| <= |d.box| + 1
  {
    hide Posts, LinkedIn;
    PostsInRange(d.(calls := d.calls + [Call(hook, h, arg)]), h, hook, arg);
  }

  /** A key adds at most one message: the box holds at most two when it is drained. */
  lemma KeyPostsOne(d: Desk, key: int)
    requires Between(d)
    ensures var d' := HandleKey(d, key);
            && WellFormed(d') && d'.wins == d.wins && d'.states == d.states && d'.fore == d.fore
            && BoxInRange(d') && FocusOnly(d'.box) && |d'.box| <= 2 && AllToldAlternately(d')
  {
    hide Posts, Invoke, LinkedIn, AllToldAlternately;
    var h := FirstForeground(d, 0);
    if Shortcut(d, key, 0) >= 0 {
      SameHistory(d, HandleKey(d, key));
    } else if key > 0 && h >= 0 {
      InvokeInRange(d, h, KeyPress, key);
      InvokeKeepsFocus(d, h, KeyPress, key);
      OtherCallsKeep(d, h, KeyPress, key);
    }
  }

  lemma SameHistory(d: Desk, d': Desk)
    requires AllToldAlternately(d) && d'.wins == d.wins && d'.calls == d.calls && d'.fore == d.fore
    ensures AllToldAlternately(d')
  {
    hide FocusCalls, Alternates;
    forall h | 0 <= h < |d'.wins|
      ensures ToldAlternately(d', h)
    {
      assert ToldAlternately(d, h);
    }
  }

  // ---------- painting ----------

  /** Background painting posts nothing and is never the foreground painting of a window. */
  lemma {:induction false} BackgroundPaintIsQuiet(d: Desk, i: nat)
    requires WellFormed(d) && i <= |d.wins| && AllToldAlternately(d)
    ensures var d' := PaintBackground(d, i);
            && d'.box == d.box && AllToldAlternately(d')
            && (forall h :: multiset(d'.calls)[Call(Paint, h, 1)] == multiset(d.calls)[Call(Paint, h, 1)])
    decreases |d.wins| - i
  {
    if i < |d.wins| {
      hide AllToldAlternately;
      if d.states[i].Background? {
        var d1 := PaintWindow(d, i);
        InvokeKeepsFocus(d, i, Paint, 0);
        OtherCallsKeep(d, i, Paint, 0);
        InvokeCalls(d, i, Paint, 0);
        BackgroundPaintIsQuiet(d1, i + 1);
      } else {
        BackgroundPaintIsQuiet(d, i + 1);
      }
    }
  }

  function ScanPaints(d: Desk): nat {
    multiset(d.calls)[Call(Paint, Scan(d.wins), 1)]
  }

  /** Painting posts a message only for PCI-SCAN in the foreground, and that is a scan. */
  lemma PaintScans(d: Desk)
    requires OneForeground(d) && LinkedIn(d.wins) && AllToldAlternately(d) && d.box == []
    ensures var d' := PaintAll(d);
            && AllToldAlternately(d') && d'.wins == d.wins
            && (d.fore == Scan(d.wins) ==>
                  d'.box == [XferControl(Scan(d.wins), List(d.wins))] && ScanPaints(d') == ScanPaints(d) + 1)
            && (d.fore != Scan(d.wins) ==> d'.box == [] && ScanPaints(d') == ScanPaints(d))
  {
    hide AllToldAlternately;
    BackgroundPaintIsQuiet(d, 0);
    var d1 := PaintBackground(d, 0);
    if d1.fore >= 0 {
      assert d1.states[d1.fore].Foreground?;
      InvokeKeepsFocus(d1, d1.fore, Paint, 1);
      OtherCallsKeep(d1, d1.fore, Paint, 1);
      InvokeCalls(d1, d1.fore, Paint, 1);
      if d1.fore != Scan(d.wins) {
        assert d1.wins[d1.fore].name != "PCI-SCAN";
      }
    }
  }

  // ---------- one iteration ----------

  lemma DrainedBetween(d: Desk)
    requires OneForeground(d) && LinkedIn(d.wins) && AllToldAlternately(d)
    requires FocusOnly(d.box) && BoxInRange(d)
    ensures var d' := Drain(d);
            OneForeground(d') && AllToldAlternately(d') && d'.box == [] && d'.wins == d.wins
  {
    hide AllToldAlternately, OneForeground, HandleAll, LinkedIn;
    ReverseMembers(d.box);
    var d0 := d.(box := []);
    SameHistory(d, d0);
    SameFocus(d, d0);
    DrainKeepsOneForeground(d0, NoWindow, Reverse(d.box));
    DrainKeepsAlternation(d0, NoWindow, Reverse(d.box));
  }

  lemma SameFocus(d: Desk, d': Desk)
    requires OneForeground(d) && d'.wins == d.wins && d'.states == d.states && d'.fore == d.fore && |d'.box| <= MSG_SIZE
    ensures OneForeground(d')
  {}

  /** One iteration of the main loop, for any key: focus and alternation hold, and at most one message
      is left in the box. */
  lemma IterationKeepsBetween(d: Desk, key: int)
    requires Between(d)
    ensures BoxInRange(HandleKey(d, key)) && Between(Iterate(d, key)) && Iterate(d, key).wins == d.wins
  {
    hide AllToldAlternately, OneForeground, HandleKey, Drain, PaintAll, LinkedIn;
    BetweenIsWellFormed(d);
    var d1 := HandleKey(d, key);
    KeyPostsOne(d, key);
    SameFocus(d, d1);
    DrainedBetween(d1);
    var d2 := Drain(d1);
    PaintScans(d2);
    SameFocusPainted(d2);
    XferInRange(d.wins);
  }

  lemma BetweenIsWellFormed(d: Desk)
    requires Between(d)
    ensures WellFormed(d) && -1 <= d.fore < |d.wins|
  {}

  lemma SameFocusPainted(d: Desk)
    requires OneForeground(d)
    ensures OneForeground(PaintAll(d))
  {
    hide PaintBackground, PaintWindow;
  }

  lemma XferInRange(wins: seq<WindowInfo>)
    requires LinkedIn(wins)
    ensures AllInRange(|wins|, [XferControl(Scan(wins), List(wins))])
    ensures FocusOnly([XferControl(Scan(wins), List(wins))])
  {}

  /** The loop for a sequence of keys; a quit key ends it before the iteration does anything. */
  function Loop(d: Desk, keys: seq<int>): (d': Desk)
    requires Between(d)
    ensures Between(d') && d'.wins == d.wins
    decreases |keys|
  {
    if keys == [] || Quits(keys[0]) then d
    else
      IterationKeepsBetween(d, keys[0]);
      Loop(Iterate(d, keys[0]), keys[1..])
  }

  /** Every run: one foreground window, alternating callbacks, and a box that holds at most two
      messages out of 32 when it is drained. */
  lemma RunsNeverOverflow(d: Desk, keys: seq<int>, key: int)
    requires Between(d)
    ensures var d' := Loop(d, keys);
            OneForeground(d') && AllToldAlternately(d') && |HandleKey(d', key).box| <= 2 < MSG_SIZE
  {
    KeyPostsOne(Loop(d, keys), key);
  }

  // ---------- booting ----------

  /** A pool as the constructors leave it. */
  predicate Registered(d: Desk) {
    && WellFormed(d) && LinkedIn(d.wins) && d.box == [] && d.fore == -1 && d.calls == []
    && (forall i :: 0 <= i < |d.states| ==> d.states[i].NotStarted?)
  }

  predicate QuietHistory(d: Desk) {
    && (forall c :: c in d.calls ==> c.hook.Init? || c.hook.StartWin? || c.hook.PostStartWin?)
  }

  lemma QuietMeansAlternating(d: Desk)
    requires QuietHistory(d) && d.fore == -1
    ensures AllToldAlternately(d) && forall h :: multiset(d.calls)[Call(Paint, h, 1)] == 0
  {
    forall h | 0 <= h < |d.wins|
      ensures ToldAlternately(d, h)
    {
      QuietFocusCalls(d.calls, h);
    }
  }

  lemma {:induction false} QuietFocusCalls(calls: seq<Call>, h: int)
    requires forall c :: c in calls ==> !c.hook.GetFocus? && !c.hook.LostFocus?
    ensures FocusCalls(calls, h) == []
  {
    if calls != [] {
      QuietFocusCalls(calls[..|calls| - 1], h);
    }
  }

  lemma {:induction false} InitIsQuiet(d: Desk, i: nat)
    requires WellFormed(d) && i <= |d.wins| && QuietHistory(d)
    ensures QuietHistory(InitAll(d, i)) && InitAll(d, i).box == d.box
    decreases |d.wins| - i
  {
    if i < |d.wins| {
      InvokeKeepsFocus(d, i, Init, 0);
      InvokeCalls(d, i, Init, 0);
      InitIsQuiet(SetState(Invoke(d, i, Init, 0), i, Inited), i + 1);
    }
  }

  lemma {:induction false} StartPostsScan(d: Desk, i: nat)
    requires WellFormed(d) && i <= |d.wins| && QuietHistory(d) && LinkedIn(d.wins)
    requires forall j :: i <= j < |d.wins| ==> d.states[j].Inited?
    requires d.box == if i <= Scan(d.wins) then [] else [NeedFocus(Scan(d.wins))]
    ensures var d' := StartAll(d, i, Inited, StartWin, Started);
            QuietHistory(d') && d'.box == [NeedFocus(Scan(d.wins))]
    decreases |d.wins| - i
  {
    if i < |d.wins| {
      InvokeKeepsFocus(d, i, StartWin, 0);
      InvokeCalls(d, i, StartWin, 0);
      assert d.wins[i].name == "PCI-SCAN" <==> i == Scan(d.wins);
      var d1 := SetState(Invoke(d, i, StartWin, 0), i, Started);
      StartPostsScan(d1, i + 1);
    }
  }

  lemma {:induction false} PostStartIsQuiet(d: Desk, i: nat)
    requires WellFormed(d) && i <= |d.wins| && QuietHistory(d)
    ensures var d' := StartAll(d, i, Started, PostStartWin, Background);
            QuietHistory(d') && d'.box == d.box
    decreases |d.wins| - i
  {
    if i < |d.wins| {
      if d.states[i].Started? {
        InvokeKeepsFocus(d, i, PostStartWin, 0);
        InvokeCalls(d, i, PostStartWin, 0);
        PostStartIsQuiet(SetState(Invoke(d, i, PostStartWin, 0), i, Background), i + 1);
      } else {
        PostStartIsQuiet(d, i + 1);
      }
    }
  }

  lemma BootIsQuiet(d: Desk)
    requires Registered(d)
    ensures QuietHistory(Boot(d))
  {
    InitIsQuiet(d, 0);
    InitLeavesInited(d, 0);
    StartPostsScan(InitAll(d, 0), 0);
    PostStartIsQuiet(StartAll(InitAll(d, 0), 0, Inited, StartWin, Started), 0);
  }

  /** After booting, PCI-SCAN's request for the focus is the only message. */
  lemma BootRequestsScan(d: Desk)
    requires Registered(d)
    ensures var d' := Boot(d);
            Between(d') && d'.box == [NeedFocus(Scan(d.wins))] && d'.fore == -1 && ScanPaints(d') == 0
  {
    InitIsQuiet(d, 0);
    InitLeavesInited(d, 0);
    StartPostsScan(InitAll(d, 0), 0);
    PostStartIsQuiet(StartAll(InitAll(d, 0), 0, Inited, StartWin, Started), 0);
    BootHasOneForeground(d);
    QuietMeansAlternating(Boot(d));
  }

  // ---------- exactly one scan ----------

  lemma {:induction false} DrainPaintsNothing(d: Desk, cur: Current, ms: seq<Message>)
    requires WellFormed(d) && CurrentInRange(d, cur) && AllInRange(|d.wins|, ms)
    ensures forall h :: multiset(HandleAll(d, cur, ms).calls)[Call(Paint, h, 1)] == multiset(d.calls)[Call(Paint, h, 1)]
    decreases |ms|
  {
    if ms != [] {
      MessagePaintsNothing(d, cur, ms[0]);
      hide HandleMessage;
      var (d1, cur1) := HandleMessage(d, cur, ms[0]);
      DrainPaintsNothing(d1, cur1, ms[1..]);
    }
  }

  lemma MessagePaintsNothing(d: Desk, cur: Current, m: Message)
    requires WellFormed(d) && CurrentInRange(d, cur) && InRange(|d.wins|, m)
    ensures forall h :: multiset(HandleMessage(d, cur, m).0.calls)[Call(Paint, h, 1)]
                        == multiset(d.calls)[Call(Paint, h, 1)]
  {
    hide Posts, Invoke;
    var cur' := NowCurrent(d, cur);
    match m
    case NeedFocus(s) => TransferPaintsNothing(d, cur', s);
    case ReleaseFocus(s) => InvokePaintsNothing(d, s, LostFocus, 0);
    case XferControl(s, t) => TransferPaintsNothing(d, cur', t);
    case DestroyWindow(s) =>
      InvokePaintsNothing(if s == d.fore then d.(fore := -1) else d, s, DestroyWin, 0);
  }

  lemma InvokePaintsNothing(d: Desk, h: int, hook: Hook, arg: int)
    requires IsHandle(d, h) && !hook.Paint?
    ensures forall w :: multiset(Invoke(d, h, hook, arg).calls)[Call(Paint, w, 1)]
                        == multiset(d.calls)[Call(Paint, w, 1)]
  {
    InvokeCalls(d, h, hook, arg);
  }

  lemma TransferPaintsNothing(d: Desk, cur: Current, h: int)
    requires WellFormed(d) && CurrentInRange(d, cur) && IsHandle(d, h)
    ensures forall w :: multiset(GiveFocus(LoseFocus(d, cur), h).calls)[Call(Paint, w, 1)]
                        == multiset(d.calls)[Call(Paint, w, 1)]
  {
    hide Posts, Invoke;
    if cur.Window? {
      InvokePaintsNothing(d, cur.h, LostFocus, 0);
    }
    var d1 := LoseFocus(d, cur);
    InvokePaintsNothing(SetState(d1.(fore := h), h, Foreground), h, GetFocus, 0);
  }

  /** What one key can add to the box. */
  lemma KeyPosts(d: Desk, key: int)
    requires Between(d)
    ensures var d1 := HandleKey(d, key);
            && ScanPaints(d1) == ScanPaints(d)
            && (|| d1.box == d.box
                || (Shortcut(d, key, 0) >= 0 && d1.box == d.box + [NeedFocus(Shortcut(d, key, 0))])
                || (d.fore == List(d.wins) && d1.box == d.box + [XferControl(d.fore, Dev(d.wins))]))
  {
    hide AllToldAlternately;
    var h := Shortcut(d, key, 0);
    if h < 0 && key > 0 && d.fore >= 0 {
      DispatchesToForeground(d);
      InvokeCalls(d, d.fore, KeyPress, key);
      assert d.wins[d.fore].name == "PCI-LIST" <==> d.fore == List(d.wins);
    } else {
      DispatchesToForeground(d);
    }
  }

  lemma DrainOne(d: Desk, m: Message)
    requires WellFormed(d) && BoxInRange(d) && d.box == [m]
    ensures Drain(d).fore == HandleMessage(d.(box := []), NoWindow, m).0.fore
  {
    hide HandleMessage;
    assert Reverse(d.box) == [m];
    var d0 := d.(box := []);
    var (d1, cur1) := HandleMessage(d0, NoWindow, m);
    assert [m][1..] == [];
    assert HandleAll(d1, cur1, []) == d1;
  }

  lemma DrainTwo(d: Desk, m0: Message, m1: Message)
    requires WellFormed(d) && BoxInRange(d) && d.box == [m0, m1]
    ensures InRange(|d.wins|, m0) && InRange(|d.wins|, m1)
    ensures var (d1, cur1) := HandleMessage(d.(box := []), NoWindow, m1);
            Drain(d).fore == HandleMessage(d1, cur1, m0).0.fore
  {
    hide HandleMessage;
    assert Reverse(d.box) == [m1, m0];
    var (d1, cur1) := HandleMessage(d.(box := []), NoWindow, m1);
    var (d2, cur2) := HandleMessage(d1, cur1, m0);
    assert [m1, m0][1..] == [m0] && [m0][1..] == [];
    assert HandleAll(d2, cur2, []) == d2;
    assert HandleAll(d1, cur1, [m0]) == d2;
  }

  /** PCI-SCAN has scanned once; its message to PCI-LIST is still in the box only while it is in front. */
  predicate Scanned(d: Desk) {
    && Between(d) && d.fore >= 0 && ScanPaints(d) == 1
    && d.box == (if d.fore == Scan(d.wins) then [XferControl(d.fore, List(d.wins))] else [])
  }

  /** The iteration in terms of who is in front after the drain. */
  lemma IterationScans(d: Desk, key: int)
    requires Between(d)
    ensures BoxInRange(HandleKey(d, key))
    ensures var d2, d' := Drain(HandleKey(d, key)), Iterate(d, key);
            && Between(d') && d'.wins == d.wins && d'.fore == d2.fore
            && (d2.fore == Scan(d.wins) ==>
                  d'.box == [XferControl(Scan(d.wins), List(d.wins))] && ScanPaints(d') == ScanPaints(d) + 1)
            && (d2.fore != Scan(d.wins) ==> d'.box == [] && ScanPaints(d') == ScanPaints(d))
  {
    hide AllToldAlternately, OneForeground, HandleKey, LinkedIn, HandleAll, PaintAll;
    BetweenIsWellFormed(d);
    var d1 := HandleKey(d, key);
    KeyPostsOne(d, key);
    KeyPosts(d, key);
    IterationKeepsBetween(d, key);
    SameFocus(d, d1);
    DrainedBetween(d1);
    DrainPaintsNothing(d1.(box := []), NoWindow, Reverse(d1.box));
    PaintScans(Drain(d1));
  }

  /** A shortcut key posts after PCI-SCAN did, is handled before it, and loses. */
  lemma FirstDrainFrontsScan(d: Desk, key: int)
    requires Between(d) && d.box == [NeedFocus(Scan(d.wins))] && d.fore == -1
    ensures PostsStayInRange(d, key) && Drain(HandleKey(d, key)).fore == Scan(d.wins)
  {
    hide AllToldAlternately, OneForeground, LinkedIn, HandleKey, Drain;
    KeyPosts(d, key);
    KeyPostsOne(d, key);
    ListExists(d.wins);
    OldestPosterWins(HandleKey(d, key));
  }

  predicate PostsStayInRange(d: Desk, key: int)
    requires WellFormed(d)
  {
    WellFormed(HandleKey(d, key)) && BoxInRange(HandleKey(d, key))
  }

  lemma FirstIterationScans(d: Desk, key: int)
    requires Between(d) && d.box == [NeedFocus(Scan(d.wins))] && d.fore == -1 && ScanPaints(d) == 0
    ensures BoxInRange(HandleKey(d, key)) && Scanned(Iterate(d, key))
  {
    hide AllToldAlternately, OneForeground, LinkedIn, HandleKey, Drain, PaintAll;
    IterationScans(d, key);
    FirstDrainFrontsScan(d, key);
    ListExists(d.wins);
  }

  lemma ListExists(wins: seq<WindowInfo>)
    requires LinkedIn(wins)
    ensures 0 <= List(wins) < |wins| && 0 <= Dev(wins) < |wins| && 0 <= Scan(wins) < |wins|
    ensures List(wins) != Scan(wins) && Dev(wins) != Scan(wins) && Dev(wins) != List(wins)
  {}

  /** Who is in front after the drain that follows a scan. */
  lemma FrontAfterScan(d: Desk, key: int)
    requires Scanned(d) && d.fore == Scan(d.wins)
    ensures PostsStayInRange(d, key)
    ensures Drain(HandleKey(d, key)).fore >= 0 && Drain(HandleKey(d, key)).fore != Scan(d.wins)
  {
    ShortcutIsBackground(d, key);
    hide AllToldAlternately, OneForeground, LinkedIn, HandleKey, Drain, Shortcut, ScanPaints;
    KeyPosts(d, key);
    KeyPostsOne(d, key);
    ListExists(d.wins);
    var d1 := HandleKey(d, key);
    if |d1.box| == 1 {
      DrainOne(d1, d1.box[0]);
    } else {
      DrainTwo(d1, d1.box[0], d1.box[1]);
    }
  }

  /** Who is in front after a drain in any later iteration. */
  lemma FrontLater(d: Desk, key: int)
    requires Scanned(d) && d.fore != Scan(d.wins)
    ensures PostsStayInRange(d, key) && Drain(HandleKey(d, key)).fore >= 0
    ensures Drain(HandleKey(d, key)).fore == Scan(d.wins) <==> Shortcut(d, key, 0) == Scan(d.wins)
  {
    ShortcutIsBackground(d, key);
    hide AllToldAlternately, OneForeground, LinkedIn, HandleKey, Drain, Shortcut, ScanPaints;
    KeyPosts(d, key);
    KeyPostsOne(d, key);
    ListExists(d.wins);
    var d1 := HandleKey(d, key);
    if d1.box == [] {
      DrainNone(d1);
    } else {
      DrainOne(d1, d1.box[0]);
    }
  }

  /** Afterwards PCI-SCAN gives the focus away, even when a shortcut key makes its message to PCI-LIST
      be dropped, and does not get it back - exactly when the key does not select PCI-SCAN itself. */
  lemma ScannedStaysIff(d: Desk, key: int)
    requires Scanned(d)
    ensures BoxInRange(HandleKey(d, key))
    ensures Scanned(Iterate(d, key)) <==> Shortcut(d, key, 0) != Scan(d.wins)
  {
    ShortcutIsBackground(d, key);
    hide AllToldAlternately, OneForeground, LinkedIn, HandleKey, Drain, PaintAll, Shortcut;
    BetweenIsWellFormed(d);
    ListExists(d.wins);
    IterationScans(d, key);
    if d.fore == Scan(d.wins) {
      FrontAfterScan(d, key);
    } else {
      FrontLater(d, key);
    }
  }

  lemma ShortcutIsBackground(d: Desk, key: int)
    requires Between(d)
    ensures Shortcut(d, key, 0) == -1 || Shortcut(d, key, 0) != d.fore
    ensures key != 0 ==> Shortcut(d, key, 0) != Scan(d.wins)
  {}

  lemma DrainNone(d: Desk)
    requires WellFormed(d) && d.box == []
    ensures AllInRange(|d.wins|, d.box) && Drain(d).fore == d.fore
  {}

  /** Otherwise PCI-SCAN is not in front when that iteration paints. */
  lemma NotInFrontAgain(d: Desk, key: int)
    requires Scanned(d) && Shortcut(d, key, 0) != Scan(d.wins)
    ensures BoxInRange(HandleKey(d, key)) && Drain(HandleKey(d, key)).fore != Scan(d.wins)
  {
    hide Shortcut, HandleKey, Drain;
    if d.fore == Scan(d.wins) {
      FrontAfterScan(d, key);
    } else {
      FrontLater(d, key);
    }
  }

  /** When the key does select PCI-SCAN, the same iteration scans again. */
  lemma SelectedScansAgain(d: Desk, key: int)
    requires Scanned(d) && Shortcut(d, key, 0) == Scan(d.wins)
    ensures BoxInRange(HandleKey(d, key)) && ScanPaints(Iterate(d, key)) == 2
  {
    ShortcutIsBackground(d, key);
    hide AllToldAlternately, OneForeground, LinkedIn, HandleKey, Drain, PaintAll, Shortcut;
    BetweenIsWellFormed(d);
    ListExists(d.wins);
    IterationScans(d, key);
    FrontLater(d, key);
  }

  /** Some key of the run selects PCI-SCAN while it waits in the background. */
  predicate SelectsScan(d: Desk, keys: seq<int>)
    requires Between(d)
    decreases |keys|
  {
    keys != [] && !Quits(keys[0])
    && (BetweenIsWellFormed(d); IterationKeepsBetween(d, keys[0]);
        Shortcut(d, keys[0], 0) == Scan(d.wins) || SelectsScan(Iterate(d, keys[0]), keys[1..]))
  }

  lemma {:induction false} ScansAddUp(d: Desk, keys: seq<int>)
    requires Between(d)
    ensures ScanPaints(Loop(d, keys)) >= ScanPaints(d)
    decreases |keys|
  {
    if keys != [] && !Quits(keys[0]) {
      hide Between, Iterate, HandleKey;
      IterationKeepsBetween(d, keys[0]);
      IterationScans(d, keys[0]);
      ScansAddUp(Iterate(d, keys[0]), keys[1..]);
    }
  }

  lemma {:induction false} LoopStaysScannedIff(d: Desk, keys: seq<int>)
    requires Scanned(d) && Between(d)
    ensures ScanPaints(Loop(d, keys)) == 1 <==> !SelectsScan(d, keys)
    decreases |keys|
  {
    ScannedOnce(d);
    if keys != [] && !Quits(keys[0]) {
      hide Scanned, Iterate, HandleKey, Between, Shortcut;
      BetweenIsWellFormed(d);
      var d' := Iterate(d, keys[0]);
      IterationKeepsBetween(d, keys[0]);
      ScannedStaysIff(d, keys[0]);
      if Shortcut(d, keys[0], 0) == Scan(d.wins) {
        SelectedScansAgain(d, keys[0]);
        ScansAddUp(d', keys[1..]);
      } else {
        LoopStaysScannedIff(d', keys[1..]);
      }
    }
  }

  lemma {:induction false} NoKeyZeroSelectsScan(d: Desk, keys: seq<int>)
    requires Between(d) && 0 !in keys
    ensures !SelectsScan(d, keys)
    decreases |keys|
  {
    if keys != [] && !Quits(keys[0]) {
      ShortcutIsBackground(d, keys[0]);
      IterationKeepsBetween(d, keys[0]);
      hide Between, Iterate, HandleKey, Shortcut;
      NoKeyZeroSelectsScan(Iterate(d, keys[0]), keys[1..]);
    }
  }

  lemma ScannedOnce(d: Desk)
    requires Scanned(d)
    ensures ScanPaints(d) == 1
  {}

  /** In every run from a booted desk with at least one iteration, PCI-SCAN is painted in the foreground
      exactly once if and only if no key after the first selects it. */
  lemma OneScanIff(d: Desk, keys: seq<int>)
    requires Registered(d) && keys != [] && !Quits(keys[0])
    ensures Between(Boot(d))
    ensures BoxInRange(HandleKey(Boot(d), keys[0])) && Between(Iterate(Boot(d), keys[0]))
    ensures ScanPaints(Loop(Boot(d), keys)) == 1 <==> !SelectsScan(Iterate(Boot(d), keys[0]), keys[1..])
  {
    BootRequestsScan(d);
    hide Boot, Iterate, HandleKey, Between, Scanned;
    var d0 := Boot(d);
    IterationKeepsBetween(d0, keys[0]);
    FirstIterationScans(d0, keys[0]);
    LoopStaysScannedIff(Iterate(d0, keys[0]), keys[1..]);
  }

  /** So without key code 0 after the first key there is exactly one scan. */
  lemma ExactlyOneScan(d: Desk, keys: seq<int>)
    requires Registered(d) && keys != [] && !Quits(keys[0]) && 0 !in keys[1..]
    ensures Between(Boot(d)) && ScanPaints(Loop(Boot(d), keys)) == 1
  {
    hide Boot, Iterate, HandleKey, Between;
    OneScanIff(d, keys);
    NoKeyZeroSelectsScan(Iterate(Boot(d), keys[0]), keys[1..]);
  }
}
