/**
 Where a key goes and who is painted in one iteration of the main loop (lfdk/lfdk.c): a shortcut key brings its
 window to the front and reaches no handler, any other key reaches the handler of the window in front, and each
 window up is painted once.
 */
module KeyRouting {
  import opened Desk
  import opened MainLoop
  import F = FocusTheorems

  // ---------- keys that reach a handler ----------

  /** The key_press callbacks of a history, in order. */
  function Presses(calls: seq<Call>): seq<Call> {
    if calls == [] then []
    else
      var last := calls[|calls| - 1];
      Presses(calls[..|calls| - 1]) + if last.hook.KeyPress? then [last] else []
  }

  lemma InvokePresses(d: Desk, h: int, hook: Hook, arg: int)
    requires IsHandle(d, h)
    ensures Presses(Invoke(d, h, hook, arg).calls)
            == Presses(d.calls) + if hook.KeyPress? && hook in d.wins[h].hooks then [Call(hook, h, arg)] else []
  {
    hide Invoke;
    F.InvokeCalls(d, h, hook, arg);
    var c := Call(hook, h, arg);
    assert (d.calls + [c])[..|d.calls|] == d.calls;
    assert Presses(d.calls) + [] == Presses(d.calls);
  }

  lemma TransferPressesNothing(d: Desk, cur: Current, h: int)
    requires WellFormed(d) && CurrentInRange(d, cur) && IsHandle(d, h)
    ensures Presses(GiveFocus(LoseFocus(d, cur), h).calls) == Presses(d.calls)
  {
    hide Presses, Invoke;
    if cur.Window? {
      InvokePresses(d, cur.h, LostFocus, 0);
    }
    var d1 := LoseFocus(d, cur);
    InvokePresses(SetState(d1.(fore := h), h, Foreground), h, GetFocus, 0);
  }

  lemma MessagePressesNothing(d: Desk, cur: Current, m: Message)
    requires WellFormed(d) && CurrentInRange(d, cur) && InRange(|d.wins|, m)
    ensures Presses(HandleMessage(d, cur, m).0.calls) == Presses(d.calls)
  {
    hide Presses, Invoke, GiveFocus, LoseFocus;
    var cur' := NowCurrent(d, cur);
    match m
    case NeedFocus(s) => TransferPressesNothing(d, cur', s);
    case ReleaseFocus(s) => InvokePresses(d, s, LostFocus, 0);
    case XferControl(s, t) => TransferPressesNothing(d, cur', t);
    case DestroyWindow(s) => InvokePresses(if s == d.fore then d.(fore := -1) else d, s, DestroyWin, 0);
  }

  lemma {:induction false} DrainPressesNothing(d: Desk, cur: Current, ms: seq<Message>)
    requires WellFormed(d) && CurrentInRange(d, cur) && AllInRange(|d.wins|, ms)
    ensures Presses(HandleAll(d, cur, ms).calls) == Presses(d.calls)
    decreases |ms|
  {
    if ms != [] {
      MessagePressesNothing(d, cur, ms[0]);
      hide HandleMessage, Presses;
      var (d1, cur1) := HandleMessage(d, cur, ms[0]);
      DrainPressesNothing(d1, cur1, ms[1..]);
    }
  }

  lemma {:induction false} BackgroundPaintPressesNothing(d: Desk, i: nat)
    requires WellFormed(d) && i <= |d.wins|
    ensures Presses(PaintBackground(d, i).calls) == Presses(d.calls)
    decreases |d.wins| - i
  {
    if i < |d.wins| {
      hide Presses, Invoke;
      if d.states[i].Background? {
        F.InvokeKeepsFocus(d, i, Paint, 0);
        InvokePresses(d, i, Paint, 0);
        assert PaintWindow(d, i) == Invoke(d, i, Paint, 0);
        BackgroundPaintPressesNothing(PaintWindow(d, i), i + 1);
      } else {
        BackgroundPaintPressesNothing(d, i + 1);
      }
    }
  }

  lemma PaintPressesNothing(d: Desk)
    requires WellFormed(d)
    ensures Presses(PaintAll(d).calls) == Presses(d.calls)
  {
    hide Presses, Invoke, PaintBackground;
    BackgroundPaintPressesNothing(d, 0);
    var d1 := PaintBackground(d, 0);
    if d1.fore >= 0 {
      InvokePresses(d1, d1.fore, Paint, 1);
      InvokePresses(d1, d1.fore, Paint, 0);
    }
  }

  /** Window h is the first in the pool that waits in the background with this shortcut key. */
  predicate FirstWithKey(d: Desk, key: int, h: int)
    requires WellFormed(d)
  {
    && IsHandle(d, h) && d.states[h].Background? && d.wins[h].shortKey == key
    && forall j :: 0 <= j < h ==> !(d.states[j].Background? && d.wins[j].shortKey == key)
  }

  predicate NobodyWithKey(d: Desk, key: int)
    requires WellFormed(d)
  {
    forall j :: 0 <= j < |d.wins| ==> !(d.states[j].Background? && d.wins[j].shortKey == key)
  }

  lemma ShortcutFinds(d: Desk, key: int, h: int)
    requires WellFormed(d)
    ensures FirstWithKey(d, key, h) ==> Shortcut(d, key, 0) == h
    ensures NobodyWithKey(d, key) ==> Shortcut(d, key, 0) == -1
  {
    hide Shortcut;
  }

  /** A shortcut key: with no message waiting its window is in front after the iteration, and the key reaches
      no handler. */
  lemma ShortcutFronts(d: Desk, key: int, h: int)
    requires Between(d) && d.box == [] && FirstWithKey(d, key, h)
    ensures BoxInRange(HandleKey(d, key)) && Iterate(d, key).fore == h
    ensures Presses(Iterate(d, key).calls) == Presses(d.calls)
  {
    BetweenIsWellFormed(d);
    KeyPostsOne(d, key);
    ShortcutFinds(d, key, h);
    FirstIsNotInFront(d, key, h);
    var d1 := HandleKey(d, key);
    assert d1.box == [NeedFocus(h)] && d1.calls == d.calls;
    hide Between, HandleKey, Presses, PaintAll, Drain, Shortcut, FirstWithKey;
    DrainOne(d1, NeedFocus(h));
    DrainKeepsPresses(d1);
    PaintPressesNothing(Drain(d1));
  }

  lemma FirstIsNotInFront(d: Desk, key: int, h: int)
    requires Between(d) && FirstWithKey(d, key, h)
    ensures h != d.fore
  {
    hide LinkedIn, F.AllToldAlternately, F.FocusOnly, BoxInRange;
  }

  lemma DrainKeepsPresses(d: Desk)
    requires WellFormed(d) && BoxInRange(d)
    ensures Presses(Drain(d).calls) == Presses(d.calls)
  {
    hide Presses, HandleAll;
    ReverseMembers(d.box);
    DrainPressesNothing(d.(box := []), NoWindow, Reverse(d.box));
  }

  /** Any other key, whatever is waiting: it reaches the handler of the window in front, once, if there is a
      window in front and it has a handler; no key reaches nobody. */
  lemma OtherKeysReachFront(d: Desk, key: int)
    requires Between(d) && NobodyWithKey(d, key)
    ensures BoxInRange(HandleKey(d, key))
    ensures Presses(Iterate(d, key).calls)
            == Presses(d.calls) + if key > 0 && d.fore >= 0 && KeyPress in d.wins[d.fore].hooks
                                  then [Call(KeyPress, d.fore, key)] else []
  {
    BetweenIsWellFormed(d);
    KeyPostsOne(d, key);
    ShortcutFinds(d, key, 0);
    var d1 := HandleKey(d, key);
    DispatchPresses(d, key);
    hide Between, HandleKey, Presses, PaintAll, Drain, Shortcut, NobodyWithKey;
    DrainKeepsPresses(d1);
    PaintPressesNothing(Drain(d1));
  }

  lemma DispatchPresses(d: Desk, key: int)
    requires Between(d) && Shortcut(d, key, 0) == -1
    ensures Presses(HandleKey(d, key).calls)
            == Presses(d.calls) + if key > 0 && d.fore >= 0 && KeyPress in d.wins[d.fore].hooks
                                  then [Call(KeyPress, d.fore, key)] else []
  {
    F.DispatchesToForeground(d);
    hide Presses, Invoke, LinkedIn, F.AllToldAlternately, F.FocusOnly, BoxInRange, Shortcut, FirstForeground;
    if key > 0 && d.fore >= 0 {
      InvokePresses(d, d.fore, KeyPress, key);
    }
  }

  // ---------- who is painted ----------

  /** One call of the paint pass: a background window as such, or the window in front. */
  predicate IsPaintOf(d: Desk, c: Call)
    requires WellFormed(d)
  {
    && c.hook.Paint? && IsHandle(d, c.handle) && Paint in d.wins[c.handle].hooks
    && ((c.arg == 0 && d.states[c.handle].Background?) || (c.arg == 1 && c.handle == d.fore))
  }

  /** In pool order, the window in front last. */
  predicate PaintOrder(calls: seq<Call>) {
    forall i, j :: 0 <= i < j < |calls| ==>
      calls[i].arg < calls[j].arg || (calls[i].arg == calls[j].arg && calls[i].handle < calls[j].handle)
  }

  lemma {:induction false} BackgroundPaints(d: Desk, i: nat) returns (more: seq<Call>)
    requires WellFormed(d) && i <= |d.wins|
    ensures PaintBackground(d, i).calls == d.calls + more && PaintOrder(more)
    ensures forall c :: c in more <==> IsPaintOf(d, c) && c.arg == 0 && c.handle >= i
    decreases |d.wins| - i
  {
    if i == |d.wins| {
      more := [];
    } else {
      var mine := PaintOne(d, i);
      var d1 := if d.states[i].Background? then PaintWindow(d, i) else d;
      hide PaintWindow, IsPaintOf;
      var rest := BackgroundPaints(d1, i + 1);
      hide PaintOrder;
      SamePaints(d, d1);
      InOrder(d, i, mine, rest);
      more := mine + rest;
      assert d.calls + more == d1.calls + rest;
    }
  }

  lemma PaintOne(d: Desk, i: nat) returns (mine: seq<Call>)
    requires WellFormed(d) && i < |d.wins|
    ensures var d1 := if d.states[i].Background? then PaintWindow(d, i) else d;
            && d1.wins == d.wins && d1.states == d.states && d1.fore == d.fore && WellFormed(d1)
            && d1.calls == d.calls + mine
    ensures |mine| <= 1 && forall c :: c in mine <==> IsPaintOf(d, c) && c.arg == 0 && c.handle == i
  {
    hide Invoke;
    F.InvokeKeepsFocus(d, i, Paint, 0);
    F.InvokeCalls(d, i, Paint, 0);
    mine := if d.states[i].Background? && Paint in d.wins[i].hooks then [Call(Paint, i, 0)] else [];
  }

  lemma SamePaints(d: Desk, d1: Desk)
    requires WellFormed(d) && WellFormed(d1) && d1.wins == d.wins && d1.states == d.states && d1.fore == d.fore
    ensures forall c :: IsPaintOf(d1, c) <==> IsPaintOf(d, c)
  {}

  lemma InOrder(d: Desk, i: nat, mine: seq<Call>, rest: seq<Call>)
    requires WellFormed(d) && |mine| <= 1 && PaintOrder(rest)
    requires forall c :: c in mine ==> c.arg == 0 && c.handle == i
    requires forall c :: c in rest ==> c.arg == 0 && c.handle >= i + 1
    ensures PaintOrder(mine + rest)
  {
    var all := mine + rest;
    forall j, k | 0 <= j < k < |all|
      ensures all[j].arg < all[k].arg || (all[j].arg == all[k].arg && all[j].handle < all[k].handle)
    {
      assert all[k] in rest && (j < |mine| ==> all[j] in mine);
    }
  }

  /** Painting calls the paint callback of each window in the background, in pool order, and then of the window in
      front: those and no others, each once. */
  lemma PaintsEachOnce(d: Desk) returns (more: seq<Call>)
    requires F.OneForeground(d)
    ensures PaintAll(d).calls == d.calls + more && PaintOrder(more)
    ensures forall c :: c in more <==> IsPaintOf(d, c)
  {
    var back := BackgroundPaints(d, 0);
    hide Invoke, PaintBackground;
    var d1 := PaintBackground(d, 0);
    if d1.fore >= 0 && Paint in d.wins[d1.fore].hooks {
      F.InvokeCalls(d1, d1.fore, Paint, 1);
      more := back + [Call(Paint, d.fore, 1)];
      assert forall k :: 0 <= k < |back| ==> back[k] in back;
    } else {
      more := back;
    }
  }

  // ---------- quitting ----------

  /** The loop stops at the first q or Q: what follows has no effect. */
  lemma {:induction false} QuitEndsRun(d: Desk, before: seq<int>, key: int, after: seq<int>)
    requires Between(d) && (key == 0x71 || key == 0x51)
    requires forall k :: k in before ==> k != 0x71 && k != 0x51
    ensures Loop(d, before + ([key] + after)) == Loop(d, before)
    decreases |before|
  {
    hide Between, Iterate, HandleKey;
    BetweenIsWellFormed(d);
    var keys := before + ([key] + after);
    if before == [] {
      assert keys[0] == key;
    } else {
      assert before[0] in before && forall k :: k in before[1..] ==> k in before;
      IterationKeepsBetween(d, before[0]);
      assert keys[0] == before[0] && keys[1..] == before[1..] + ([key] + after);
      QuitEndsRun(Iterate(d, before[0]), before[1..], key, after);
    }
  }
}
