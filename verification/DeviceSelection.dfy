/**
 From the list to the device: keys pressed in PCI-LIST move the shared index, and ENTER brings PCI-DEV to the
 front, which paints the device under it (lfdk/lib_pci_list.c, lfdk/lib_pci_dev.c).
 */
module DeviceSelection {
  import opened ConfigStore
  import opened EndToEnd
  import opened HexInput
  import opened PcixDriver
  import opened ReadBack
  import D = Desk
  import F = FocusTheorems
  import M = MainLoop
  import P = PciScreens

  /** Between two iterations, PCI-LIST is in front and no message is waiting. */
  predicate ListInFront(d: D.Desk) {
    && M.Between(d) && DevShows(d.wins) && d.fore == M.List(d.wins) && d.box == []
    && D.KeyPress in d.wins[d.fore].hooks
  }

  /** The screens and the requests so far are the same. */
  predicate SameSoFar(found: seq<Op> -> seq<P.Device>, d: D.Desk, d': D.Desk) {
    Screens(found, d') == Screens(found, d) && Issued(found, d') == Issued(found, d)
  }

  /** A transfer of the focus that PCI-DEV does not lose. */
  lemma TransferIsSilent(p: Platform, found: seq<Op> -> seq<P.Device>, d: D.Desk, cur: D.Current, h: int)
    requires D.WellFormed(d) && D.CurrentInRange(d, cur) && D.IsHandle(d, h) && cur != D.Window(M.Dev(d.wins))
    ensures SameSoFar(found, d, D.GiveFocus(D.LoseFocus(d, cur), h))
  {
    hide Screens, Issued, D.Invoke;
    var d1 := D.LoseFocus(d, cur);
    if cur.Window? {
      SilentInvoke(p, found, d, cur.h, D.LostFocus, 0);
      StatesDoNotMatter(found, D.Invoke(d, cur.h, D.LostFocus, 0), d1);
    }
    var d2 := D.SetState(d1.(fore := h), h, D.Foreground);
    StatesDoNotMatter(found, d1, d2);
    SilentInvoke(p, found, d2, h, D.GetFocus, 0);
  }

  lemma StatesDoNotMatter(found: seq<Op> -> seq<P.Device>, d: D.Desk, d': D.Desk)
    requires d'.wins == d.wins && d'.calls == d.calls
    ensures SameSoFar(found, d, d')
  {}

  /** Painting with a window in front: what the screens see is that window's own paint. */
  lemma PaintPlays(p: Platform, found: seq<Op> -> seq<P.Device>, d: D.Desk)
    requires F.OneForeground(d) && d.fore >= 0
    ensures var (s', more) := Effect(d.wins, found, Screens(found, d), Issued(found, d), D.Call(D.Paint, d.fore, 1));
            var d' := D.PaintAll(d);
            if D.Paint in d.wins[d.fore].hooks
            then Screens(found, d') == s' && Issued(found, d') == Issued(found, d) + more
            else SameSoFar(found, d, d')
  {
    hide Screens, Issued, Effect, D.Invoke, D.PaintBackground;
    BackgroundPaintIsSilent(p, found, d, 0);
    var d1 := D.PaintBackground(d, 0);
    InvokePlays(found, d1, d.fore, D.Paint, 1);
  }

  /** Only PCI-DEV and PCI-SCAN paint anything the screens see. */
  lemma OtherPaintIsSilent(p: Platform, found: seq<Op> -> seq<P.Device>, d: D.Desk)
    requires F.OneForeground(d) && d.fore >= 0 && d.fore != M.Dev(d.wins) && d.fore != M.Scan(d.wins)
    ensures SameSoFar(found, d, D.PaintAll(d))
  {
    hide Screens, Issued, D.PaintAll;
    PaintPlays(p, found, d);
    assert Issued(found, d) + [] == Issued(found, d);
  }

  // ---------- one message ----------

  /** The drain of a single request for the focus, or transfer of it, by a window that is not PCI-DEV. */
  lemma DrainOneIsSilent(p: Platform, found: seq<Op> -> seq<P.Device>, d: D.Desk, m: D.Message, h: int)
    requires D.WellFormed(d) && D.BoxInRange(d) && d.box == [m] && d.fore != M.Dev(d.wins) && h != d.fore
    requires m == D.XferControl(d.fore, h) || (m == D.NeedFocus(h) && d.fore == -1)
    ensures SameSoFar(found, d, D.Drain(d)) && D.Drain(d).fore == h
  {
    hide Screens, Issued, D.GiveFocus, D.LoseFocus;
    var d0 := d.(box := []);
    assert D.Reverse(d.box) == [m] && [m][1..] == [];
    var (d1, cur1) := D.HandleMessage(d0, D.NoWindow, m);
    assert D.HandleAll(d1, cur1, []) == d1;
    assert D.Drain(d) == d1;
    StatesDoNotMatter(found, d, d0);
    TransferIsSilent(p, found, d0, D.NowCurrent(d0, D.NoWindow), h);
  }

  // ---------- keys in PCI-LIST ----------

  lemma ListKeyDispatch(d: D.Desk, key: int)
    requires ListInFront(d) && Reaches(d.wins, key)
    ensures D.HandleKey(d, key) == D.Invoke(d, d.fore, D.KeyPress, key)
    ensures D.HandleKey(d, key).box == if key == ENTER then [D.XferControl(d.fore, M.Dev(d.wins))] else []
    ensures var d1 := D.HandleKey(d, key);
            D.WellFormed(d1) && d1.fore == d.fore && d1.wins == d.wins
  {
    F.DispatchesToForeground(d);
    M.ListExists(d.wins);
    M.KeyPostsOne(d, key);
  }

  /** A key other than ENTER moves the shared index, and PCI-LIST stays in front. */
  lemma ListIteration(p: Platform, found: seq<Op> -> seq<P.Device>, d: D.Desk, key: int)
    requires ListInFront(d) && Reaches(d.wins, key) && key != ENTER
    ensures D.BoxInRange(D.HandleKey(d, key)) && ListInFront(D.Iterate(d, key)) && D.Iterate(d, key).wins == d.wins
    ensures Screens(found, D.Iterate(d, key)) == P.ListKey(Screens(found, d), key)
    ensures Issued(found, D.Iterate(d, key)) == Issued(found, d)
  {
    M.ListExists(d.wins);
    M.BetweenIsWellFormed(d);
    M.IterationScans(d, key);
    M.KeyPostsOne(d, key);
    ListKeyDispatch(d, key);
    InvokePlays(found, d, d.fore, D.KeyPress, key);
    var d1 := D.HandleKey(d, key);
    assert Issued(found, d) + [] == Issued(found, d);
    hide M.Between, D.HandleKey, D.Invoke, Screens, Issued, P.ListKey, D.PaintAll, M.LinkedIn, M.List, M.Dev, M.Scan;
    NothingToDrain(d1);
    FrontAfterKey(d, d1);
    OtherPaintIsSilent(p, found, d1);
  }

  lemma NothingToDrain(d: D.Desk)
    requires D.WellFormed(d) && d.box == []
    ensures D.AllInRange(|d.wins|, d.box) && D.Drain(d) == d
  {
    assert d.(box := []) == d && D.Reverse([]) == [];
  }

  lemma FrontAfterKey(d: D.Desk, d1: D.Desk)
    requires M.Between(d) && d1.wins == d.wins && d1.states == d.states && d1.fore == d.fore && D.WellFormed(d1)
    ensures F.OneForeground(d1)
  {
    hide F.AllToldAlternately, M.LinkedIn;
  }

  /** ENTER on its own changes nothing the screens see, and hands the focus to PCI-DEV. */
  lemma EnterDrains(p: Platform, found: seq<Op> -> seq<P.Device>, d: D.Desk)
    requires ListInFront(d) && Reaches(d.wins, ENTER)
    ensures D.WellFormed(D.HandleKey(d, ENTER)) && D.BoxInRange(D.HandleKey(d, ENTER))
    ensures var d2 := D.Drain(D.HandleKey(d, ENTER));
            F.OneForeground(d2) && d2.wins == d.wins && d2.fore == M.Dev(d.wins) && SameSoFar(found, d, d2)
  {
    M.ListExists(d.wins);
    M.BetweenIsWellFormed(d);
    M.KeyPostsOne(d, ENTER);
    ListKeyDispatch(d, ENTER);
    EnterIsSilent(found, d);
    DrainedFront(d, ENTER);
    var d1 := D.HandleKey(d, ENTER);
    hide M.Between, D.HandleKey, D.Drain, Screens, Issued, M.LinkedIn, M.List, M.Dev, M.Scan;
    DrainOneIsSilent(p, found, d1, D.XferControl(d.fore, M.Dev(d.wins)), M.Dev(d.wins));
  }

  lemma EnterIsSilent(found: seq<Op> -> seq<P.Device>, d: D.Desk)
    requires ListInFront(d) && Reaches(d.wins, ENTER)
    ensures D.WellFormed(d) && SameSoFar(found, d, D.HandleKey(d, ENTER))
  {
    M.ListExists(d.wins);
    M.BetweenIsWellFormed(d);
    ListKeyDispatch(d, ENTER);
    hide M.Between, D.HandleKey, D.Invoke, Play, M.LinkedIn, M.List, M.Dev, M.Scan;
    InvokePlays(found, d, d.fore, D.KeyPress, ENTER);
    assert Issued(found, d) + [] == Issued(found, d);
  }

  /** ENTER brings PCI-DEV to the front, which paints the page it is on. */
  lemma EnterIteration(p: Platform, found: seq<Op> -> seq<P.Device>, d: D.Desk)
    requires ListInFront(d) && Reaches(d.wins, ENTER)
    ensures D.BoxInRange(D.HandleKey(d, ENTER))
    ensures var d' := D.Iterate(d, ENTER);
            && DevInFront(d') && d'.wins == d.wins && Screens(found, d') == Screens(found, d)
            && Issued(found, d') == Issued(found, d) + [P.PaintRequest(Screens(found, d))]
  {
    M.ListExists(d.wins);
    M.IterationScans(d, ENTER);
    EnterDrains(p, found, d);
    hide M.Between, D.HandleKey, D.Drain, D.PaintAll, Play, M.LinkedIn, M.List, M.Dev, M.Scan, P.PaintRequest;
    PaintPlays(p, found, D.Drain(D.HandleKey(d, ENTER)));
  }

  lemma DrainedFront(d: D.Desk, key: int)
    requires M.Between(d)
    ensures D.WellFormed(D.HandleKey(d, key)) && D.BoxInRange(D.HandleKey(d, key))
    ensures F.OneForeground(D.Drain(D.HandleKey(d, key))) && D.Drain(D.HandleKey(d, key)).wins == d.wins
  {
    M.KeyPostsOne(d, key);
    hide D.HandleKey, D.HandleAll, F.AllToldAlternately, M.LinkedIn;
    M.SameFocus(d, D.HandleKey(d, key));
    M.DrainedBetween(D.HandleKey(d, key));
  }

  function ListKeys(s: P.Pci, keys: seq<int>): P.Pci
    decreases |keys|
  {
    if keys == [] then s else ListKeys(P.ListKey(s, keys[0]), keys[1..])
  }

  /** Keys that reach PCI-LIST and leave it in front. */
  predicate Moves(wins: seq<D.WindowInfo>, keys: seq<int>) {
    forall key :: key in keys ==> Reaches(wins, key) && key != ENTER
  }

  lemma FirstMove(wins: seq<D.WindowInfo>, keys: seq<int>)
    requires Moves(wins, keys) && keys != []
    ensures Reaches(wins, keys[0]) && keys[0] != ENTER && Moves(wins, keys[1..])
  {
    hide Reaches;
    assert keys[0] in keys && forall key :: key in keys[1..] ==> key in keys;
  }

  lemma {:induction false} ListRun(p: Platform, found: seq<Op> -> seq<P.Device>, d: D.Desk, keys: seq<int>)
    requires ListInFront(d) && Moves(d.wins, keys)
    ensures M.Between(d)
    ensures var d' := M.Loop(d, keys);
            && ListInFront(d') && d'.wins == d.wins
            && Screens(found, d') == ListKeys(Screens(found, d), keys) && Issued(found, d') == Issued(found, d)
    decreases |keys|
  {
    assert M.Between(d);
    if keys != [] {
      FirstMove(d.wins, keys);
      hide ListInFront, Reaches, Moves, M.Between, D.Iterate, D.HandleKey, Screens, Issued, P.ListKey;
      ListIteration(p, found, d, keys[0]);
      ReachesIsNoQuit(d.wins, keys[0]);
      M.IterationKeepsBetween(d, keys[0]);
      ListRun(p, found, D.Iterate(d, keys[0]), keys[1..]);
    }
  }

  /** Whatever keys move about in PCI-LIST, ENTER then opens the device under the index they lead to: PCI-DEV is
      in front, and what it reads is the first page of that device. */
  lemma SelectedIsOpened(p: Platform, found: seq<Op> -> seq<P.Device>, d: D.Desk, keys: seq<int>)
    requires ListInFront(d) && Moves(d.wins, keys) && Reaches(d.wins, ENTER)
    requires var s := Screens(found, d);
             P.Inv(p, s) && P.Idle(s) && 0 <= s.curr < |s.list|
    ensures M.Between(d)
    ensures var d', s := M.Loop(d, keys + [ENTER]), ListKeys(Screens(found, d), keys);
            && DevInFront(d') && Screens(found, d') == s && s.list == Screens(found, d).list && 0 <= s.curr < |s.list|
            && Issued(found, d') == Issued(found, d) + [Bulk(P.DeviceRequest(s.list[s.curr], 0, 0))]
  {
    var s := ListKeys(Screens(found, d), keys);
    MovesDoNotQuit(d.wins, keys);
    ListInFrontIsBetween(d);
    hide *;
    ListRun(p, found, d, keys);
    ListKeysStay(p, Screens(found, d), keys);
    var d1 := M.Loop(d, keys);
    ReachesIsNoQuit(d.wins, ENTER);
    LoopSnoc(d, keys, ENTER);
    EnterIteration(p, found, d1);
    FirstPageOf(p, s);
  }

  lemma ListInFrontIsBetween(d: D.Desk)
    requires ListInFront(d)
    ensures M.Between(d)
  {}

  lemma MovesDoNotQuit(wins: seq<D.WindowInfo>, keys: seq<int>)
    requires Moves(wins, keys)
    ensures forall key :: key in keys ==> !M.Quits(key)
  {}

  lemma {:induction false} ListKeysStay(p: Platform, s: P.Pci, keys: seq<int>)
    requires P.Inv(p, s) && P.Idle(s) && 0 <= s.curr < |s.list|
    ensures var s' := ListKeys(s, keys);
            P.Inv(p, s') && P.Idle(s') && s'.list == s.list && 0 <= s'.curr < |s'.list|
    decreases |keys|
  {
    if keys != [] {
      hide P.Inv, P.Idle;
      P.ListKeyKeepsInv(p, s, keys[0]);
      P.IndexStaysIff(s);
      ListKeysStay(p, P.ListKey(s, keys[0]), keys[1..]);
    }
  }

  lemma FirstPageOf(p: Platform, s: P.Pci)
    requires P.Inv(p, s) && P.Idle(s) && 0 <= s.curr < |s.list|
    ensures P.PaintRequest(s) == Bulk(P.DeviceRequest(s.list[s.curr], 0, 0))
  {
    P.RequestsNameSelected(p, s);
    hide P.PaintRequest, P.Inv;
  }

  /** KEY_DOWN n times. */
  function Downs(n: nat): (keys: seq<int>)
    ensures |keys| == n && forall i :: 0 <= i < n ==> keys[i] == KEY_DOWN
  {
    seq(n, _ => KEY_DOWN)
  }

  lemma {:induction false} DownsMove(s: P.Pci, n: nat)
    requires 0 <= s.curr < |s.list|
    ensures ListKeys(s, Downs(n)) == s.(curr := P.Min(|s.list| - 1, s.curr + n))
    decreases n
  {
    if n > 0 {
      P.ListSteps(s);
      assert Downs(n)[1..] == Downs(n - 1);
      hide P.ListKey;
      DownsMove(P.ListKey(s, KEY_DOWN), n - 1);
    }
  }

  // ---------- the first two iterations ----------

  /** The first iteration, without a key: PCI-SCAN is in front and has filled the list; the index is where it was. */
  lemma ScanIteration(p: Platform, found: seq<Op> -> seq<P.Device>, d: D.Desk)
    requires M.Between(d) && Linked(d.wins) && d.box == [D.NeedFocus(M.Scan(d.wins))] && d.fore == -1
    requires forall i :: 0 <= i < |d.wins| ==> d.wins[i].shortKey != -1
    ensures D.BoxInRange(D.HandleKey(d, -1))
    ensures var d' := D.Iterate(d, -1);
            && d'.fore == M.Scan(d.wins) && d'.wins == d.wins
            && d'.box == [D.XferControl(M.Scan(d.wins), M.List(d.wins))]
            && Screens(found, d') == P.Rescan(Screens(found, d), found(Issued(found, d)))
            && Issued(found, d') == Issued(found, d)
  {
    M.ListExists(d.wins);
    M.BetweenIsWellFormed(d);
    M.IterationScans(d, -1);
    NoKeyNoChange(d);
    DrainedFront(d, -1);
    ScanPaints(d.wins);
    hide M.Between, D.HandleKey, Screens, Issued, D.PaintAll, D.Drain, M.LinkedIn, M.List, M.Dev, M.Scan, P.Rescan;
    DrainOneIsSilent(p, found, d, D.NeedFocus(M.Scan(d.wins)), M.Scan(d.wins));
    PaintPlays(p, found, D.Drain(d));
    assert Issued(found, d) + [] == Issued(found, d);
  }

  lemma ScanPaints(wins: seq<D.WindowInfo>)
    requires M.LinkedIn(wins)
    ensures 0 <= M.Scan(wins) < |wins| && D.Paint in wins[M.Scan(wins)].hooks
  {}

  lemma NoKeyNoChange(d: D.Desk)
    requires D.WellFormed(d) && forall i :: 0 <= i < |d.wins| ==> d.wins[i].shortKey != -1
    ensures D.HandleKey(d, -1) == d
  {}

  /** The next, without a key: PCI-LIST is in front. */
  lemma ListComesUp(p: Platform, found: seq<Op> -> seq<P.Device>, d: D.Desk)
    requires M.Between(d) && Linked(d.wins) && d.fore == M.Scan(d.wins)
    requires d.box == [D.XferControl(M.Scan(d.wins), M.List(d.wins))]
    requires forall i :: 0 <= i < |d.wins| ==> d.wins[i].shortKey != -1
    ensures D.BoxInRange(D.HandleKey(d, -1))
    ensures var d' := D.Iterate(d, -1);
            d'.fore == M.List(d.wins) && d'.wins == d.wins && d'.box == [] && SameSoFar(found, d, d')
  {
    M.ListExists(d.wins);
    M.BetweenIsWellFormed(d);
    M.IterationScans(d, -1);
    NoKeyNoChange(d);
    DrainedFront(d, -1);
    hide M.Between, D.HandleKey, Screens, Issued, D.PaintAll, D.Drain, M.LinkedIn, M.List, M.Dev, M.Scan;
    DrainOneIsSilent(p, found, d, D.XferControl(d.fore, M.List(d.wins)), M.List(d.wins));
    OtherPaintIsSilent(p, found, D.Drain(d));
  }
}
