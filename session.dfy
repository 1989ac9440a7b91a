/** One attached session: the run loop that repeats the tick until a read
    fails, the game reports it is closing, or the process goes away, after
    which the timer is reset once. */
module Session {
  import opened Geometry
  import opened Splits
  import opened Timer
  import opened Autosplitter

  /** What one pass of the loop reads: the elapsed time, the position and
      the timer's state, or a failure of any of the three memory reads. */
  datatype Reading = Read(time: real, x: real, y: real, timer: TimerState) | ReadFailed

  /** The commands the loop sends for `readings`, starting from the
      retained time `lastTime` and the cursor `split`, up to the tick where
      it stops. */
  function Run(lastTime: real, split: nat, readings: seq<Reading>): seq<Command>
    decreases |readings|
  {
    if readings == [] || readings[0].ReadFailed? then []
    else
      var r := readings[0];
      var o := Tick(lastTime, split, r.time, Vector2(r.x, r.y), r.timer);
      if o.exit then o.cmds else o.cmds + Run(o.lastTime, o.split, readings[1..])
  }

  /** All commands of a session: the loop starts with retained time 0 and
      cursor 0, and a Reset follows once it ends. */
  function Session(readings: seq<Reading>): (cmds: seq<Command>)
    ensures |cmds| > 0 && cmds[|cmds| - 1] == Reset
  {
    Run(0.0, 0, readings) + [Reset]
  }

  /** The run loop of one session, driving a `Splitter` over the readings. */
  method RunSession(readings: seq<Reading>) returns (cmds: seq<Command>)
    ensures cmds == Session(readings)
  {
    var splitter := new Splitter();
    var i := 0;
    var stopped := false;
    while i < |readings| && !stopped
      decreases |readings| - i, !stopped
      invariant 0 <= i <= |readings|
      invariant splitter.Valid()
      invariant stopped ==> splitter.commands == Run(0.0, 0, readings)
      invariant !stopped ==>
        splitter.commands + Run(splitter.lastTime, splitter.split, readings[i..]) == Run(0.0, 0, readings)
    {
      var r := readings[i];
      if r.ReadFailed? {
        stopped := true;
      } else {
        assert readings[i..][0] == r && readings[i..][1..] == readings[i + 1..];
        var exit := splitter.Step(r.time, r.x, r.y, r.timer);
        if exit {
          stopped := true;
        }
        i := i + 1;
      }
    }
    cmds := splitter.commands + [Reset];
  }

  /** Over any stretch of the loop the Splits sent never exceed the regions
      still ahead of the starting cursor plus a full table per Reset. */
  lemma {:induction false} RunSplitBudget(lastTime: real, split: nat, readings: seq<Reading>)
    requires split <= SplitCount
    ensures var cmds := Run(lastTime, split, readings);
      Count(cmds, Split) <= (SplitCount - split) + SplitCount * Count(cmds, Reset)
    decreases |readings|
  {
    if readings != [] && readings[0].Read? {
      var r := readings[0];
      var o := Tick(lastTime, split, r.time, Vector2(r.x, r.y), r.timer);
      TickSplitBudget(lastTime, split, r.time, Vector2(r.x, r.y), r.timer);
      if !o.exit {
        var rest := Run(o.lastTime, o.split, readings[1..]);
        RunSplitBudget(o.lastTime, o.split, readings[1..]);
        CountAppend(o.cmds, rest, Split);
        CountAppend(o.cmds, rest, Reset);
      }
    }
  }

  /** A session sends at most one table's worth of Splits per Reset: the
      cursor cannot run past the last region, and only a Reset brings it
      back. */
  lemma SessionSplitBudget(readings: seq<Reading>)
    ensures var cmds := Session(readings);
      Count(cmds, Split) <= SplitCount * Count(cmds, Reset)
  {
    var run := Run(0.0, 0, readings);
    RunSplitBudget(0.0, 0, readings);
    CountAppend(run, [Reset], Split);
    CountAppend(run, [Reset], Reset);
  }

  /** Whether the loop stops at this reading: a failed read, or the game
      reporting that it is closing. */
  predicate Stops(r: Reading) {
    r.ReadFailed? || r.time == Closing
  }

  /** Once the loop has stopped, later readings are never looked at: after
      the closing sentinel or a failed read the only command left is the
      final Reset. */
  lemma {:induction false} StopIgnoresRest(lastTime: real, split: nat, readings: seq<Reading>, more: seq<Reading>)
    requires |readings| > 0 && Stops(readings[|readings| - 1])
    ensures Run(lastTime, split, readings + more) == Run(lastTime, split, readings)
    decreases |readings|
  {
    var all := readings + more;
    assert all[0] == readings[0];
    if readings[0].Read? {
      var r := readings[0];
      var o := Tick(lastTime, split, r.time, Vector2(r.x, r.y), r.timer);
      if !o.exit {
        assert |readings| > 1;
        assert all[1..] == readings[1..] + more;
        StopIgnoresRest(o.lastTime, o.split, readings[1..], more);
      }
    }
  }

  /** The same fact for whole sessions. */
  lemma SessionStopsAtExit(readings: seq<Reading>, more: seq<Reading>)
    requires |readings| > 0 && Stops(readings[|readings| - 1])
    ensures Session(readings + more) == Session(readings)
  {
    StopIgnoresRest(0.0, 0, readings, more);
  }

  /** A short session: a finished run is reset in the menu, the next run
      starts when its time leaves the menu, the player is already inside
      the Tutorial region, and the game then closes. */
  lemma MenuToFirstSplit()
    ensures Session([Read(MainMenu, 0.0, 0.0, Ended),
                     Read(0.0, -10.0, 10.0, NotRunning),
                     Read(Closing, 0.0, 0.0, Running)])
         == [Reset, Start, SetGameTime(0), Split, Reset]
  {
    var rs := [Read(MainMenu, 0.0, 0.0, Ended),
               Read(0.0, -10.0, 10.0, NotRunning),
               Read(Closing, 0.0, 0.0, Running)];
    assert InBounds(Vector2(-10.0, 10.0), SPLITS[0]);
    assert GameTimeMillis(0.0) == 0;
    assert Run(MainMenu, 1, rs[2..]) == [];
    assert Run(MainMenu, 0, rs[1..]) == [Start, SetGameTime(0), Split];
    assert Run(0.0, 0, rs) == [Reset, Start, SetGameTime(0), Split];
  }
}
