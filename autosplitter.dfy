/** One tick of the autosplitter's run loop: from the elapsed time and the
    player's position read this tick, the time retained from the previous
    tick, the split cursor and the timer's state, decide which commands to
    send, what to retain and whether the loop ends.

    The game reports sentinel values through the elapsed time:
    -3 when it is closing, -2 on the reward screen, -1 in the main menu;
    any other value is the time of a run in progress. */
module Autosplitter {
  import opened Geometry
  import opened Splits
  import opened Timer

  const Closing: real := -3.0
  const RewardScreen: real := -2.0
  const MainMenu: real := -1.0

  /** What one tick decides: the commands it sends, in order, the time to
      retain for the next tick, the new split cursor, and whether the loop
      exits. */
  datatype Outcome = Outcome(cmds: seq<Command>, lastTime: real, split: nat, exit: bool)

  /** A tick in a run: the time is not one of the sentinels. */
  predicate InGame(time: real) {
    time != Closing && time != RewardScreen && time != MainMenu
  }

  /** The timer is restarted when play resumes with a time that went
      backwards (a new run loaded without passing the menu). */
  predicate Restarts(lastTime: real, time: real) {
    time > MainMenu && lastTime != MainMenu && time < lastTime
  }

  /** The region index the split check tests: the cursor, or 0 after a
      restart. */
  function CheckedIndex(lastTime: real, split: nat, time: real): nat {
    if Restarts(lastTime, time) then 0 else split
  }

  /** Whether this tick reaches the next expected region. */
  predicate Hits(lastTime: real, split: nat, time: real, pos: Vector2) {
    var c := CheckedIndex(lastTime, split, time);
    InGame(time) && c < SplitCount && InBounds(pos, SPLITS[c])
  }

  /** The decision of one tick, specified by cases on the elapsed time. */
  function Tick(lastTime: real, split: nat, time: real, pos: Vector2, timer: TimerState): (o: Outcome)
    ensures o.exit <==> time == Closing
    ensures o.exit ==> o.cmds == [] && o.lastTime == lastTime && o.split == split
    ensures !o.exit ==> o.lastTime == time
    ensures o.split <= split + 1
    ensures split <= SplitCount ==> o.split <= SplitCount
  {
    if time == Closing then
      Outcome([], lastTime, split, true)
    else if time == RewardScreen then
      Outcome([], time, split, false)
    else if time == MainMenu then
      if timer == Ended || timer == Running then Outcome([Reset], time, 0, false)
      else Outcome([], time, split, false)
    else
      var lead :=
        if time > MainMenu && lastTime == MainMenu then [Start]
        else if Restarts(lastTime, time) then [Reset, Start]
        else [];
      var c := CheckedIndex(lastTime, split, time);
      var hit := Hits(lastTime, split, time, pos);
      Outcome(lead + [SetGameTime(GameTimeMillis(time))] + (if hit then [Split] else []),
              time, if hit then c + 1 else c, false)
  }

  /** The run loop's retained state and the stream of commands sent to the
      timer so far. */
  class Splitter {
    var lastTime: real
    var split: nat
    var commands: seq<Command>

    predicate Valid()
      reads this
    {
      split <= SplitCount
    }

    constructor ()
      ensures Valid()
      ensures lastTime == 0.0 && split == 0 && commands == []
    {
      lastTime := 0.0;
      split := 0;
      commands := [];
    }

    /** One pass through the loop body: sends this tick's commands and
        updates the retained time and the cursor; `exit` reports that the
        game is closing. */
    method Step(time: real, x: real, y: real, timer: TimerState) returns (exit: bool)
      requires Valid()
      modifies this
      ensures Valid()
      ensures var o := Tick(old(lastTime), old(split), time, Vector2(x, y), timer);
        commands == old(commands) + o.cmds &&
        lastTime == o.lastTime && split == o.split && exit == o.exit
    {
      exit := false;
      if time == Closing {
        exit := true;
        return;
      }
      if time == RewardScreen {
        lastTime := time;
        return;
      }
      if time == MainMenu {
        if timer == Ended || timer == Running {
          split := 0;
          commands := commands + [Reset];
        }
        lastTime := time;
        return;
      }
      if time > MainMenu {
        if lastTime == MainMenu {
          commands := commands + [Start];
        } else if time < lastTime {
          split := 0;
          commands := commands + [Reset];
          commands := commands + [Start];
        }
      }
      commands := commands + [SetGameTime(GameTimeMillis(time))];
      var pos := Vector2(x, y);
      if split < SplitCount && InBounds(pos, SPLITS[split]) {
        commands := commands + [Split];
        split := split + 1;
      }
      lastTime := time;
    }
  }

  /** The closing sentinel ends the loop and sends nothing. */
  lemma ClosingExits(lastTime: real, split: nat, pos: Vector2, timer: TimerState)
    ensures var o := Tick(lastTime, split, Closing, pos, timer);
      o.exit && Start !in o.cmds && Split !in o.cmds && Reset !in o.cmds &&
      forall ms :: SetGameTime(ms) !in o.cmds
  {
  }

  /** On the reward screen and in the main menu no game time is set and no
      split is taken; the sentinel becomes the retained time. */
  lemma ScreensSetNoTime(lastTime: real, split: nat, time: real, pos: Vector2, timer: TimerState)
    requires time == RewardScreen || time == MainMenu
    ensures var o := Tick(lastTime, split, time, pos, timer);
      !o.exit && o.lastTime == time && Split !in o.cmds && Start !in o.cmds &&
      (forall ms :: SetGameTime(ms) !in o.cmds)
  {
  }

  /** The reward screen changes nothing but the retained time. */
  lemma RewardScreenIsQuiet(lastTime: real, split: nat, pos: Vector2, timer: TimerState)
    ensures var o := Tick(lastTime, split, RewardScreen, pos, timer);
      o.cmds == [] && o.split == split
  {
  }

  /** In the main menu the run is reset, and the cursor returned to 0,
      exactly when the timer is running or has ended; otherwise nothing is
      sent and the cursor is kept. */
  lemma MenuResetsActiveRun(lastTime: real, split: nat, pos: Vector2, timer: TimerState)
    ensures var o := Tick(lastTime, split, MainMenu, pos, timer);
      (Reset in o.cmds <==> timer == Running || timer == Ended) &&
      o.cmds == (if Reset in o.cmds then [Reset] else []) &&
      o.split == (if Reset in o.cmds then 0 else split)
  {
  }

  /** A tick in a run sends, in this order: Start when leaving the menu, or
      Reset then Start when the time went backwards; then the game time in
      milliseconds; then a Split if the next region is reached. The cursor
      becomes the index tested (0 after a restart, otherwise unchanged),
      plus one when a Split is sent. */
  lemma InGameOrder(lastTime: real, split: nat, time: real, pos: Vector2, timer: TimerState)
    requires InGame(time)
    ensures var o := Tick(lastTime, split, time, pos, timer);
      var lead := if time > MainMenu && lastTime == MainMenu then [Start]
                  else if time > MainMenu && time < lastTime then [Reset, Start]
                  else [];
      var tail := if Split in o.cmds then [Split] else [];
      o.cmds == lead + [SetGameTime(GameTimeMillis(time))] + tail &&
      !o.exit && o.lastTime == time &&
      (Reset in o.cmds <==> Restarts(lastTime, time)) &&
      o.split == CheckedIndex(lastTime, split, time) + (if Split in o.cmds then 1 else 0)
  {
    var o := Tick(lastTime, split, time, pos, timer);
    if Hits(lastTime, split, time, pos) {
      assert o.cmds[|o.cmds| - 1] == Split;
    } else {
      assert Split !in o.cmds;
    }
  }

  /** A time below the menu sentinel that is not another sentinel neither
      starts nor resets the timer, but its game time is still sent. */
  lemma NegativeTimeOnlySetsTime(lastTime: real, split: nat, time: real, pos: Vector2, timer: TimerState)
    requires time < MainMenu && time != Closing && time != RewardScreen
    ensures var o := Tick(lastTime, split, time, pos, timer);
      Start !in o.cmds && Reset !in o.cmds && o.cmds[0] == SetGameTime(GameTimeMillis(time)) &&
      GameTimeMillis(time) <= -1000
  {
  }

  /** A Split is sent exactly when the position is strictly inside the
      region at the cursor (the cursor after a restart), and it advances
      the cursor past that region by one. */
  lemma SplitOnlyAtNextRegion(lastTime: real, split: nat, time: real, pos: Vector2, timer: TimerState)
    ensures var o := Tick(lastTime, split, time, pos, timer);
      var c := CheckedIndex(lastTime, split, time);
      (Split in o.cmds <==> InGame(time) && c < SplitCount && InBounds(pos, SPLITS[c])) &&
      (Split in o.cmds ==> o.split == c + 1)
  {
    var o := Tick(lastTime, split, time, pos, timer);
    if InGame(time) && !Hits(lastTime, split, time, pos) {
      var lead := if time > MainMenu && lastTime == MainMenu then [Start]
                  else if Restarts(lastTime, time) then [Reset, Start]
                  else [];
      assert o.cmds == lead + [SetGameTime(GameTimeMillis(time))];
      assert Split !in lead;
    }
  }

  /** Standing in a region other than the next expected one, earlier or
      later, sends no Split unless a restart makes it the first region, and
      without a Reset it keeps the cursor. */
  lemma OtherRegionIgnored(lastTime: real, split: nat, time: real, pos: Vector2, timer: TimerState, j: nat)
    requires j < SplitCount && j != split
    requires InBounds(pos, SPLITS[j])
    ensures var o := Tick(lastTime, split, time, pos, timer);
      (!Restarts(lastTime, time) ==> Split !in o.cmds) &&
      (j != 0 ==> Split !in o.cmds) &&
      (Reset !in o.cmds ==> o.split == split)
  {
    var o := Tick(lastTime, split, time, pos, timer);
    var c := CheckedIndex(lastTime, split, time);
    if c < SplitCount && c != j {
      RegionsDisjoint(pos, j, c);
    }
    SplitOnlyAtNextRegion(lastTime, split, time, pos, timer);
    if InGame(time) {
      InGameOrder(lastTime, split, time, pos, timer);
    }
  }

  /** The cursor only moves backwards by a Reset; a tick that sends Reset
      leaves it at 0, or at 1 when it also sends a Split. */
  lemma CursorDropsOnlyOnReset(lastTime: real, split: nat, time: real, pos: Vector2, timer: TimerState)
    ensures var o := Tick(lastTime, split, time, pos, timer);
      (o.split < split ==> Reset in o.cmds) &&
      (Reset in o.cmds ==> o.split == (if Split in o.cmds then 1 else 0))
  {
    var o := Tick(lastTime, split, time, pos, timer);
    if InGame(time) {
      InGameOrder(lastTime, split, time, pos, timer);
    }
  }

  /** Each tick keeps the split budget: the Splits it sends plus the
      regions still ahead afterwards never exceed the regions ahead before,
      plus a full table for every Reset it sends. */
  lemma TickSplitBudget(lastTime: real, split: nat, time: real, pos: Vector2, timer: TimerState)
    requires split <= SplitCount
    ensures var o := Tick(lastTime, split, time, pos, timer);
      Count(o.cmds, Split) + (SplitCount - o.split) <=
        (SplitCount - split) + SplitCount * Count(o.cmds, Reset)
  {
    var o := Tick(lastTime, split, time, pos, timer);
    if InGame(time) {
      var lead := if time > MainMenu && lastTime == MainMenu then [Start]
                  else if Restarts(lastTime, time) then [Reset, Start]
                  else [];
      var tail := if Hits(lastTime, split, time, pos) then [Split] else [];
      assert o.cmds == lead + [SetGameTime(GameTimeMillis(time))] + tail;
      CountAppend(lead + [SetGameTime(GameTimeMillis(time))], tail, Split);
      CountAppend(lead + [SetGameTime(GameTimeMillis(time))], tail, Reset);
      CountAppend(lead, [SetGameTime(GameTimeMillis(time))], Split);
      CountAppend(lead, [SetGameTime(GameTimeMillis(time))], Reset);
      if Restarts(lastTime, time) {
        assert Count(lead, Reset) == 1;
      }
    }
  }

  /** A region is split on once: after a tick that reaches the next region
      and so sends a Split, standing in the same region on the next tick
      (without a restart, and not back in the menu) sends no Split and
      keeps the cursor. */
  lemma NoDoubleSplit(lastTime: real, split: nat, t1: real, p1: Vector2, s1: TimerState,
                      t2: real, p2: Vector2, s2: TimerState)
    requires !Restarts(t1, t2) && t2 != MainMenu
    requires Hits(lastTime, split, t1, p1)
    requires InBounds(p2, SPLITS[CheckedIndex(lastTime, split, t1)])
    ensures var o1 := Tick(lastTime, split, t1, p1, s1);
      var o2 := Tick(o1.lastTime, o1.split, t2, p2, s2);
      Split in o1.cmds && Split !in o2.cmds && o2.split == o1.split
  {
    var o1 := Tick(lastTime, split, t1, p1, s1);
    SplitOnlyAtNextRegion(lastTime, split, t1, p1, s1);
    var o2 := Tick(o1.lastTime, o1.split, t2, p2, s2);
    assert !Restarts(o1.lastTime, t2);
    SplitOnlyAtNextRegion(o1.lastTime, o1.split, t2, p2, s2);
    if o1.split < SplitCount {
      RegionsDisjoint(p2, o1.split - 1, o1.split);
    }
    if InGame(t2) {
      InGameOrder(o1.lastTime, o1.split, t2, p2, s2);
    }
  }
}
