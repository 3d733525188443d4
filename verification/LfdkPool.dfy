/**
 The pool lfdk really builds: its modules register in the order lfdk/Makefile links them. Three of them have
 no shortcut key, so key code 0 selects PCI-SCAN exactly while PCI-DEV, which comes before it, is in front.
 */
module LfdkPool {
  import opened ConfigStore
  import opened Desk
  import opened MainLoop
  import opened PcixDriver
  import E = EndToEnd
  import F = FocusTheorems
  import HI = HexInput
  import N = Enumeration
  import K = KeyRouting
  import P = PciScreens
  import R = ReadBack
  import S = DeviceSelection

  const PANEL: set<Hook> := {GetFocus, LostFocus, KeyPress, Paint}

  function Pool(): seq<WindowInfo> {
    [WindowInfo("PCI-DEV", 0, PANEL),
     WindowInfo("PCI-SCAN", 0, {Init, StartWin, Paint, DestroyWin}),
     WindowInfo("PCI-LIST", 'p' as int, PANEL),
     WindowInfo("baseboard", 0, {Init, StartWin, Paint}),
     WindowInfo("IO-SPACE", 'i' as int, PANEL),
     WindowInfo("CMOS-SPACE", 'o' as int, PANEL + {Init}),
     WindowInfo("MEM-SPACE", 'm' as int, PANEL)]
  }

  function Startup(): Desk {
    Desk(Pool(), seq(7, _ => NotStarted), [], -1, [])
  }

  lemma NamesDiffer()
    ensures forall i, j :: 0 <= i < j < 7 ==> Pool()[i].name != Pool()[j].name
  {
    var wins := Pool();
    assert wins[1].name[4] == 'S' && wins[2].name[4] == 'L' && wins[4].name[4] == 'P';
    assert wins[3].name[0] == 'b' && wins[6].name[0] == 'M';
  }

  /** It is a pool the theorems about runs speak of. */
  lemma PoolIsLinked()
    ensures Registered(Startup()) && R.DevShows(Pool())
    ensures Dev(Pool()) == 0 && Scan(Pool()) == 1 && List(Pool()) == 2
  {
    NamesDiffer();
    var wins := Pool();
    assert wins[0].name == "PCI-DEV" && wins[1].name == "PCI-SCAN" && wins[2].name == "PCI-LIST";
    assert Find(wins, "PCI-DEV") == 0 && Find(wins, "PCI-SCAN") == 1 && Find(wins, "PCI-LIST") == 2;
  }

  /** The desk after a run of keys from boot. */
  function After(keys: seq<int>): (d: Desk)
    ensures Between(d)
  {
    PoolIsLinked();
    R.AfterRun(Startup(), keys)
  }

  // ---------- every window is up ----------

  /** After booting every window waits in the background or is in front. */
  predicate Up(d: Desk) {
    forall i :: 0 <= i < |d.states| ==> d.states[i].Background? || d.states[i].Foreground?
  }

  lemma {:induction false} DrainKeepsUp(d: Desk, cur: Current, ms: seq<Message>)
    requires WellFormed(d) && CurrentInRange(d, cur) && AllInRange(|d.wins|, ms) && F.FocusOnly(ms) && Up(d)
    ensures Up(HandleAll(d, cur, ms))
    decreases |ms|
  {
    if ms != [] {
      assert ms[0] in ms;
      MessageKeepsUp(d, cur, ms[0]);
      hide HandleMessage, Up;
      var (d1, cur1) := HandleMessage(d, cur, ms[0]);
      DrainKeepsUp(d1, cur1, ms[1..]);
    }
  }

  lemma MessageKeepsUp(d: Desk, cur: Current, m: Message)
    requires WellFormed(d) && CurrentInRange(d, cur) && InRange(|d.wins|, m) && Up(d)
    requires m.NeedFocus? || m.XferControl?
    ensures Up(HandleMessage(d, cur, m).0)
  {
    hide LoseFocus, GiveFocus;
  }

  lemma IterationKeepsUp(d: Desk, key: int)
    requires Between(d) && Up(d)
    ensures BoxInRange(HandleKey(d, key)) && Up(Iterate(d, key))
  {
    hide F.AllToldAlternately, F.OneForeground, LinkedIn, HandleKey, HandleAll, PaintAll;
    BetweenIsWellFormed(d);
    KeyPostsOne(d, key);
    var d1 := HandleKey(d, key);
    ReverseMembers(d1.box);
    DrainKeepsUp(d1.(box := []), NoWindow, Reverse(d1.box));
  }

  // ---------- who key code 0 selects ----------

  lemma KeyZeroSelectsScanIff(d: Desk, key: int)
    requires Between(d) && Up(d) && d.wins == Pool()
    ensures Shortcut(d, key, 0) == Scan(Pool()) <==> key == 0 && d.fore == Dev(Pool())
  {
    PoolIsLinked();
    ShortcutIsBackground(d, key);
    hide Dev, Scan, LinkedIn, F.AllToldAlternately, BoxInRange, F.FocusOnly;
    if key == 0 {
      assert d.wins[0].shortKey == 0 && d.wins[1].shortKey == 0;
    }
  }

  /** Key code 0 while PCI-DEV is in front, at some iteration of the run. */
  predicate ZeroOverDev(d: Desk, keys: seq<int>)
    requires Between(d)
    decreases |keys|
  {
    keys != [] && !Quits(keys[0])
    && (BetweenIsWellFormed(d); IterationKeepsBetween(d, keys[0]);
        (keys[0] == 0 && d.fore == Dev(d.wins)) || ZeroOverDev(Iterate(d, keys[0]), keys[1..]))
  }

  lemma {:induction false} SelectsScanIff(d: Desk, keys: seq<int>)
    requires Between(d) && Up(d) && d.wins == Pool()
    ensures SelectsScan(d, keys) <==> ZeroOverDev(d, keys)
    decreases |keys|
  {
    if keys != [] && !Quits(keys[0]) {
      hide Between, Up, Iterate, HandleKey, Shortcut, Pool;
      BetweenIsWellFormed(d);
      IterationKeepsBetween(d, keys[0]);
      IterationKeepsUp(d, keys[0]);
      KeyZeroSelectsScanIff(d, keys[0]);
      SelectsScanIff(Iterate(d, keys[0]), keys[1..]);
    }
  }

  /** lfdk scans exactly once in a run if and only if key code 0 never comes while PCI-DEV is in front. */
  lemma OneScanIffNoZeroOverDev(keys: seq<int>)
    requires keys != [] && !Quits(keys[0])
    ensures ScanPaints(After(keys)) == 1 <==> !ZeroOverDev(After([]), keys)
  {
    PoolIsLinked();
    BootRequestsScan(Startup());
    F.BootLeavesBackground(Startup());
    var d := Boot(Startup());
    assert After([]) == d && After(keys) == Loop(d, keys);
    hide Boot, Between, Iterate, HandleKey, Pool, Registered, After;
    BetweenIsWellFormed(d);
    IterationKeepsBetween(d, keys[0]);
    IterationKeepsUp(d, keys[0]);
    hide Up;
    OneScanIff(Startup(), keys);
    SelectsScanIff(Iterate(d, keys[0]), keys[1..]);
  }

  // ---------- a run with two scans ----------

  lemma PoolKeys()
    ensures forall i :: 0 <= i < 7 ==> Pool()[i].shortKey != -1 && Pool()[i].shortKey != ENTER
  {}

  /** With a single message waiting and a key that adds none. */
  lemma QuietIteration(d: Desk, m: Message)
    requires Between(d) && d.wins == Pool() && d.box == [m]
    requires m.XferControl? && m.sender == d.fore && m.target != d.fore
    ensures BoxInRange(HandleKey(d, -1)) && Iterate(d, -1).fore == m.target
  {
    PoolKeys();
    hide LinkedIn, F.AllToldAlternately, PaintAll, Drain;
    assert HandleKey(d, -1) == d;
    DrainOne(d, m);
  }

  lemma EnterOnList(d: Desk)
    requires Between(d) && d.wins == Pool() && d.box == [] && d.fore == 2
    ensures BoxInRange(HandleKey(d, ENTER)) && Iterate(d, ENTER).fore == 0
  {
    PoolKeys();
    PoolIsLinked();
    F.DispatchesToForeground(d);
    KeyPostsOne(d, ENTER);
    var d1 := HandleKey(d, ENTER);
    assert d1.box == [XferControl(2, 0)];
    hide LinkedIn, F.AllToldAlternately, PaintAll, Drain, HandleKey;
    DrainOne(d1, XferControl(2, 0));
  }

  /** Between two iterations of a run that has scanned once, with this window in front. */
  predicate OnceWith(d: Desk, h: int) {
    Scanned(d) && Up(d) && d.wins == Pool() && d.fore == h
  }

  lemma AfterSnoc(keys: seq<int>, key: int)
    requires !Quits(key) && forall k :: k in keys ==> !Quits(k)
    ensures BoxInRange(HandleKey(After(keys), key)) && After(keys + [key]) == Iterate(After(keys), key)
  {
    PoolIsLinked();
    hide Boot, Loop, Iterate, HandleKey, Between, Registered;
    BootRequestsScan(Startup());
    R.LoopSnoc(Boot(Startup()), keys, key);
    IterationKeepsBetween(After(keys), key);
  }

  lemma Booted()
    ensures var d := After([]);
            d.wins == Pool() && Up(d) && d.box == [NeedFocus(Scan(Pool()))] && d.fore == -1 && ScanPaints(d) == 0
  {
    PoolIsLinked();
    BootRequestsScan(Startup());
    F.BootLeavesBackground(Startup());
    hide Boot, Registered, Between;
  }

  lemma FirstIteration()
    ensures OnceWith(After([-1]), Scan(Pool()))
  {
    hide *;
    NoQuits();
    Booted();
    AfterSnoc([], -1);
    assert [] + [-1] == [-1];
    ScanIsFirst(After([]));
  }

  lemma ScanIsFirst(d: Desk)
    requires Between(d) && Up(d) && d.wins == Pool()
    requires d.box == [NeedFocus(Scan(Pool()))] && d.fore == -1 && ScanPaints(d) == 0
    ensures BoxInRange(HandleKey(d, -1)) && OnceWith(Iterate(d, -1), Scan(Pool()))
  {
    hide Between, Scanned, Up, Iterate, Drain, HandleKey, Pool, ScanPaints, Scan, List;
    IterationKeepsUp(d, -1);
    FirstIterationScans(d, -1);
    FirstDrainFrontsScan(d, -1);
    IterationScans(d, -1);
  }

  lemma NextIteration(keys: seq<int>, h: int, key: int, g: int)
    requires OnceWith(After(keys), h) && key != 0 && !Quits(key) && forall k :: k in keys ==> !Quits(k)
    requires BoxInRange(HandleKey(After(keys), key)) && Iterate(After(keys), key).fore == g
    ensures OnceWith(After(keys + [key]), g)
  {
    var d := After(keys);
    hide Iterate, HandleKey, Shortcut, After, Pool, Scan, List, LinkedIn, F.AllToldAlternately, ScanPaints, Up;
    AfterSnoc(keys, key);
    ShortcutIsBackground(d, key);
    hide Between;
    IterationKeepsUp(d, key);
    ScannedStaysIff(d, key);
    hide Scanned;
    IterationScans(d, key);
  }

  lemma OnceIs(d: Desk, h: int)
    requires OnceWith(d, h)
    ensures Between(d) && Scanned(d) && Up(d) && d.wins == Pool() && d.fore == h
    ensures d.box == if h == Scan(Pool()) then [XferControl(h, List(Pool()))] else []
  {
    hide Between;
  }

  lemma ListIsNext()
    ensures OnceWith(After([-1] + [-1]), List(Pool()))
  {
    FirstIteration();
    PoolIsLinked();
    NoQuits();
    hide *;
    OnceIs(After([-1]), Scan(Pool()));
    QuietIteration(After([-1]), XferControl(1, 2));
    NextIteration([-1], 1, -1, 2);
  }

  lemma NoQuits()
    ensures !Quits(-1) && !Quits(ENTER) && !Quits(0) && ENTER != 0 && ENTER == HI.ENTER
  {}

  /** Three iterations from boot, the last with ENTER, bring PCI-DEV to the front after one scan. */
  lemma EnterReachesDev()
    ensures OnceWith(After([-1, -1, ENTER]), Dev(Pool()))
  {
    ListIsNext();
    PoolIsLinked();
    NoQuits();
    hide *;
    OnceIs(After([-1] + [-1]), 2);
    EnterOnList(After([-1] + [-1]));
    NextIteration([-1] + [-1], 2, ENTER, 0);
    assert [-1] + [-1] + [ENTER] == [-1, -1, ENTER];
  }

  /** There key code 0 selects PCI-SCAN: the run scans twice. */
  lemma TwoScans()
    ensures ScanPaints(After([-1, -1, ENTER, 0])) == 2
  {
    EnterReachesDev();
    NoQuits();
    hide *;
    var keys := [-1, -1, ENTER];
    OnceIs(After(keys), Dev(Pool()));
    KeyZeroSelectsScanIff(After(keys), 0);
    SelectedScansAgain(After(keys), 0);
    AfterSnoc(keys, 0);
    assert keys + [0] == [-1, -1, ENTER, 0];
  }

  // ---------- the shortcut keys ----------

  lemma {:induction false} LoopKeepsUp(d: Desk, keys: seq<int>)
    requires Between(d) && Up(d)
    ensures Up(Loop(d, keys))
    decreases |keys|
  {
    if keys != [] && !Quits(keys[0]) {
      hide Between, Up, Iterate, HandleKey;
      IterationKeepsBetween(d, keys[0]);
      IterationKeepsUp(d, keys[0]);
      LoopKeepsUp(Iterate(d, keys[0]), keys[1..]);
    }
  }

  /** In every run every window is up, and messages wait only for PCI-SCAN. */
  lemma RunIsUp(keys: seq<int>)
    ensures var d := After(keys);
            d.wins == Pool() && Up(d) && (d.fore >= 0 && d.fore != Scan(Pool()) ==> d.box == [])
  {
    Booted();
    PoolIsLinked();
    BootRequestsScan(Startup());
    hide Boot, Between, Registered, Loop, Up, Scan, ScanPaints, Pool;
    assert After([]) == Boot(Startup()) by { AfterNothing(); }
    LoopKeepsUp(Boot(Startup()), keys);
    R.LoopEmptiesBox(Boot(Startup()), keys);
  }

  lemma AfterNothing()
    ensures Registered(Startup()) && After([]) == Boot(Startup())
  {
    PoolIsLinked();
    hide Boot, Registered;
  }

  /** The window of each shortcut key. */
  function WindowOf(key: char): int {
    match key case 'p' => 2 case 'i' => 4 case 'o' => 5 case _ => 6
  }

  lemma NamesOfShortcuts()
    ensures Pool()[WindowOf('p')].name == "PCI-LIST" && Pool()[WindowOf('i')].name == "IO-SPACE"
    ensures Pool()[WindowOf('o')].name == "CMOS-SPACE" && Pool()[WindowOf('m')].name == "MEM-SPACE"
  {}

  lemma ShortcutOfWindow(d: Desk, key: char)
    requires Between(d) && d.wins == Pool() && Up(d) && key in "piom"
    ensures d.fore != WindowOf(key) ==> K.FirstWithKey(d, key as int, WindowOf(key))
    ensures d.fore == WindowOf(key) ==> K.NobodyWithKey(d, key as int)
  {
    hide LinkedIn, F.AllToldAlternately, F.FocusOnly, BoxInRange;
  }

  /** In every run of lfdk, once the scan is over, each of the keys p, i, o and m brings its window to the front and
      reaches no handler; if its window is in front already, it stays and its handler gets the key. */
  lemma ShortcutsInLfdk(keys: seq<int>, key: char)
    requires key in "piom" && forall k :: k in keys ==> !Quits(k)
    requires After(keys).fore >= 0 && After(keys).fore != Scan(Pool())
    ensures After(keys + [key as int]).fore == WindowOf(key)
    ensures K.Presses(After(keys + [key as int]).calls)
            == K.Presses(After(keys).calls)
               + if After(keys).fore == WindowOf(key) then [Call(KeyPress, WindowOf(key), key as int)] else []
  {
    hide *;
    RunIsUp(keys);
    LettersDoNotQuit(key);
    AfterSnoc(keys, key as int);
    ShortcutIteration(After(keys), key);
  }

  lemma ShortcutIteration(d: Desk, key: char)
    requires Between(d) && d.wins == Pool() && Up(d) && d.box == [] && key in "piom" && d.fore >= 0
    ensures BoxInRange(HandleKey(d, key as int)) && Iterate(d, key as int).fore == WindowOf(key)
    ensures K.Presses(Iterate(d, key as int).calls)
            == K.Presses(d.calls) + if d.fore == WindowOf(key) then [Call(KeyPress, WindowOf(key), key as int)] else []
  {
    hide *;
    LettersDoNotQuit(key);
    ShortcutOfWindow(d, key);
    if d.fore != WindowOf(key) {
      K.ShortcutFronts(d, key as int, WindowOf(key));
      assert K.Presses(d.calls) + [] == K.Presses(d.calls);
    } else {
      K.OtherKeysReachFront(d, key as int);
      OwnKeyStays(d, key);
    }
  }

  lemma LettersDoNotQuit(key: char)
    requires key in "piom"
    ensures !Quits(key as int) && key as int > 0 && key as int != ENTER && KeyPress in Pool()[WindowOf(key)].hooks
  {}

  lemma OwnKeyStays(d: Desk, key: char)
    requires Between(d) && d.wins == Pool() && Up(d) && d.box == [] && key in "piom" && d.fore == WindowOf(key)
    ensures BoxInRange(HandleKey(d, key as int)) && Iterate(d, key as int).fore == d.fore
  {
    ShortcutOfWindow(d, key);
    K.ShortcutFinds(d, key as int, 0);
    F.DispatchesToForeground(d);
    LettersDoNotQuit(key);
    KeyPostsOne(d, key as int);
    assert HandleKey(d, key as int).box == [];
    hide Between, HandleKey, Up, Pool, Shortcut;
    DrainNone(HandleKey(d, key as int));
  }

  // ---------- opening a device ----------

  lemma NoKeyIsShortcut()
    ensures forall i :: 0 <= i < |Pool()| ==> Pool()[i].shortKey != -1 && Pool()[i].shortKey != HI.KEY_DOWN
    ensures KeyPress in Pool()[2].hooks
  {}

  /** After booting and two iterations without a key PCI-LIST is in front with the list of the scan, the first
      device selected. */
  lemma ListAfterBoot(p: Platform, found: seq<Op> -> seq<P.Device>)
    requires E.Setting(p, found) && found([]) != []
    ensures var d := After([-1] + [-1]);
            && S.ListInFront(d) && d.wins == Pool() && E.Issued(found, d) == []
            && E.Screens(found, d) == P.Rescan(P.Start(), found([]))
  {
    hide *;
    PoolIsLinked();
    NoQuits();
    NoKeyIsShortcut();
    Booted();
    BootedScreens(p, found);
    S.ScanIteration(p, found, After([]));
    AfterSnoc([], -1);
    assert [] + [-1] == [-1];
    S.ListComesUp(p, found, After([-1]));
    AfterSnoc([-1], -1);
    ListIsUp(After([-1] + [-1]));
    SameScreens(found, After([-1]), After([-1] + [-1]));
  }

  lemma SameScreens(found: seq<Op> -> seq<P.Device>, d: Desk, d': Desk)
    requires S.SameSoFar(found, d, d')
    ensures E.Screens(found, d') == E.Screens(found, d) && E.Issued(found, d') == E.Issued(found, d)
  {
    hide E.Screens, E.Issued;
  }

  lemma ListIsUp(d: Desk)
    requires Between(d) && d.wins == Pool() && d.fore == List(Pool()) && d.box == []
    ensures S.ListInFront(d)
  {
    PoolIsLinked();
    hide Between;
  }

  lemma BootedScreens(p: Platform, found: seq<Op> -> seq<P.Device>)
    requires E.Setting(p, found)
    ensures Registered(Startup()) && E.Linked(Pool())
    ensures E.Screens(found, After([])) == P.Start() && E.Issued(found, After([])) == []
  {
    PoolIsLinked();
    AfterNothing();
    BootIsQuiet(Startup());
    hide Boot, E.Play, Registered, LinkedIn, Scan, Dev, List;
    E.QuietPlay(Pool(), found, Boot(Startup()).calls);
  }

  /** From there, DOWN n times and ENTER open device n of the list, or the last one: PCI-DEV is in front, and the one
      request so far reads the first page of that device. */
  lemma NthDeviceIsOpened(p: Platform, found: seq<Op> -> seq<P.Device>, n: nat)
    requires E.Setting(p, found) && found([]) != []
    ensures var d, list := After([-1] + [-1] + (S.Downs(n) + [ENTER])), found([]);
            && d.fore == Dev(Pool()) && E.Screens(found, d).curr == P.Min(|list| - 1, n)
            && E.Issued(found, d) == [Bulk(P.DeviceRequest(list[P.Min(|list| - 1, n)], 0, 0))]
  {
    hide *;
    var d, start := After([-1] + [-1]), P.Rescan(P.Start(), found([]));
    ListAfterBoot(p, found);
    FirstListIsGood(p, found);
    NoQuits();
    DownsReach(n);
    S.DownsMove(start, n);
    S.SelectedIsOpened(p, found, d, S.Downs(n));
    AfterMore(S.Downs(n) + [ENTER]);
    DevIsInFront(After([-1] + [-1] + (S.Downs(n) + [ENTER])));
  }

  /** On a machine: the n-th present function, under the base its own configuration bytes decide. */
  lemma NthFunctionIsOpened(m: N.Machine, maxBus: nat, n: nat)
    requires N.BaseIsDecoded(m) && maxBus <= 255 && N.FirstOf(N.FoundBelow(m, maxBus * 0x100)) != []
    ensures var d, list := After([-1] + [-1] + (S.Downs(n) + [ENTER])), N.FirstOf(N.FoundBelow(m, maxBus * 0x100));
            var f := list[P.Min(|list| - 1, n)];
            && d.fore == Dev(Pool()) && N.BaseIsRight(m, f)
            && E.Issued(E.Scans(m, maxBus), d) == [Bulk(P.DeviceRequest(f.device, 0, 0))]
  {
    var found, list := E.Scans(m, maxBus), N.FirstOf(N.FoundBelow(m, maxBus * 0x100));
    E.ScansGiveSetting(m, m.platform, maxBus);
    FirstScan(m, maxBus);
    N.ListHasRightBases(m, maxBus * 0x100);
    hide *;
    var i := P.Min(|list| - 1, n);
    NthDeviceIsOpened(m.platform, found, n);
  }

  lemma FirstScan(m: N.Machine, maxBus: nat)
    requires maxBus <= 255
    ensures E.Scans(m, maxBus)([]) == N.Devices(N.FirstOf(N.FoundBelow(m, maxBus * 0x100)))
  {
    hide N.FoundBelow, N.FirstOf, N.Devices;
    assert Run(m.platform, m.hw, []).0 == m.hw;
    assert m.(hw := m.hw) == m;
  }

  lemma FirstListIsGood(p: Platform, found: seq<Op> -> seq<P.Device>)
    requires E.Setting(p, found) && found([]) != []
    ensures var s := P.Rescan(P.Start(), found([]));
            P.Inv(p, s) && P.Idle(s) && s.curr == 0 && s.list == found([])
  {
    P.RescanKeepsInv(p, P.Start(), found([]));
  }

  lemma DownsReach(n: nat)
    ensures S.Moves(Pool(), S.Downs(n)) && R.Reaches(Pool(), ENTER)
  {
    NoKeyIsShortcut();
    PoolKeys();
  }

  lemma AfterMore(more: seq<int>)
    ensures Between(After([-1] + [-1])) && After([-1] + [-1] + more) == Loop(After([-1] + [-1]), more)
  {
    PoolIsLinked();
    hide Registered, Loop, Boot, Between;
    R.AppendedRun(Startup(), [-1] + [-1], more);
  }

  lemma DevIsInFront(d: Desk)
    requires R.DevInFront(d)
    ensures d.fore == Dev(d.wins)
  {}

  // ---------- typing ----------

  /** No module's shortcut is a hex digit or ENTER: these keys reach the window in front. */
  lemma TypingReaches(s: P.Pci, v: nat, keys: seq<int>)
    requires P.TypesValue(s, v, keys)
    ensures forall key :: key in keys + [ENTER] ==> R.Reaches(Pool(), key)
  {
    hide HI.HexDigits;
    forall key | key in keys + [ENTER]
      ensures R.Reaches(Pool(), key)
    {
      assert HI.IsHex(key) || key == ENTER;
    }
  }

  /** Every scan of lfdk's run on this machine finds a function. */
  predicate ScansFind(m: N.Machine, maxBus: nat, keys: seq<int>)
    requires maxBus <= 255
  {
    PoolIsLinked();
    E.EveryScanOfRunFinds(E.Scans(m, maxBus), Startup(), keys)
  }

  /** From booting lfdk on a machine whose scans find something: whatever is pressed until PCI-DEV is in front,
      typing the print of v at a cell and ENTER writes v to that cell of the device under the shared index, leaves
      it in the machine's configuration space there, and the block painted last shows it. */
  lemma TypedInLfdk(m: N.Machine, maxBus: nat, before: seq<int>, v: nat, keys: seq<int>)
    requires GoodPlatform(m.platform) && (m.mmioBase == 0 || m.mmioBase == m.platform.ecam) && maxBus <= 255
    requires Valid(m.hw) && ScansFind(m, maxBus, before)
    requires (forall key :: key in before ==> !Quits(key)) && After(before).fore == Dev(Pool())
    requires P.TypesValue(E.Screens(E.Scans(m, maxBus), After(before)), v, keys)
    ensures v < 0x1_0000_0000
    ensures var s := E.Screens(E.Scans(m, maxBus), After(before));
            var ops := E.Issued(E.Scans(m, maxBus), After(before + (keys + [ENTER])));
            var (hw', answers) := Run(m.platform, m.hw, ops);
            R.CellHolds(s, v, ops, hw', answers)
  {
    hide *;
    NoQuits();
    PoolIsLinked();
    MachineGivesSetting(m, maxBus, before);
    TypingReaches(E.Screens(E.Scans(m, maxBus), After(before)), v, keys);
    AfterIs(before);
    AfterIs(before + (keys + [ENTER]));
    R.TypedValueIsShown(m.platform, E.Scans(m, maxBus), Startup(), before, v, keys, m.hw);
  }

  lemma MachineGivesSetting(m: N.Machine, maxBus: nat, keys: seq<int>)
    requires GoodPlatform(m.platform) && (m.mmioBase == 0 || m.mmioBase == m.platform.ecam) && maxBus <= 255
    requires ScansFind(m, maxBus, keys)
    ensures Registered(Startup()) && E.EveryScanOfRunFinds(E.Scans(m, maxBus), Startup(), keys)
    ensures E.Setting(m.platform, E.Scans(m, maxBus))
  {
    PoolIsLinked();
    E.ScansGiveSetting(m, m.platform, maxBus);
    hide E.EveryScanOfRunFinds, Registered;
  }

  lemma AfterIs(keys: seq<int>)
    ensures Registered(Startup()) && Startup().wins == Pool() && After(keys) == R.AfterRun(Startup(), keys)
  {
    PoolIsLinked();
  }
}
