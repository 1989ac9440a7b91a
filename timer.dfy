/** The interface to the timing application: the timer state the splitter
    reads and the commands it sends, and the conversion of the game's
    elapsed seconds into the whole milliseconds of a game-time command. */
module Timer {

  /** The state the timing application reports. */
  datatype TimerState = NotRunning | Running | Paused | Ended

  /** A command sent to the timing application. */
  datatype Command = Reset | Start | Split | SetGameTime(ms: int)

  /** Range of a signed 64-bit integer. */
  const I64Min: int := -0x8000_0000_0000_0000
  const I64Max: int := 0x7FFF_FFFF_FFFF_FFFF

  function Abs(v: real): real { if v < 0.0 then -v else v }

  /** Truncation toward zero: the integer of the same sign as `v` whose
      magnitude is the whole part of `v`'s magnitude. */
  function Trunc(v: real): (n: int)
    ensures (n as real) * v >= 0.0
    ensures Abs(n as real) <= Abs(v) < Abs(n as real) + 1.0
  {
    if v >= 0.0 then v.Floor else -((-v).Floor)
  }

  /** A float-to-integer cast into 64 bits, which saturates at the bounds
      instead of wrapping. */
  function Saturate64(n: int): (r: int)
    ensures I64Min <= r <= I64Max
    ensures I64Min <= n <= I64Max ==> r == n
    ensures n > I64Max ==> r == I64Max
    ensures n < I64Min ==> r == I64Min
  {
    if n > I64Max then I64Max else if n < I64Min then I64Min else n
  }

  /** The game time, in milliseconds, for an elapsed time in seconds:
      the product with 1000, truncated toward zero, as a 64-bit integer. */
  function GameTimeMillis(seconds: real): (ms: int)
    ensures I64Min <= ms <= I64Max
    ensures I64Min as real <= seconds * 1000.0 <= I64Max as real ==>
              Abs(ms as real) <= Abs(seconds * 1000.0) < Abs(ms as real) + 1.0
    ensures (ms as real) * seconds >= 0.0
  {
    Saturate64(Trunc(seconds * 1000.0))
  }

  /** Truncation, not rounding: 1.9999 s is 1999 ms, not 2000 ms. */
  lemma TruncatesNotRounds()
    ensures GameTimeMillis(1.9999) == 1999
  {
  }

  /** Truncation is toward zero, not toward negative infinity:
      -0.0025 s is -2 ms, where a floor would give -3 ms. */
  lemma TruncatesTowardZero()
    ensures GameTimeMillis(-0.0025) == -2
  {
  }

  /** Number of occurrences of `c` in `cmds`. */
  function Count(cmds: seq<Command>, c: Command): nat
  {
    if cmds == [] then 0
    else (if cmds[0] == c then 1 else 0) + Count(cmds[1..], c)
  }

  lemma {:induction false} CountAppend(a: seq<Command>, b: seq<Command>, c: Command)
    ensures Count(a + b, c) == Count(a, c) + Count(b, c)
  {
    if a == [] {
      assert a + b == b;
    } else {
      assert (a + b)[1..] == a[1..] + b;
      CountAppend(a[1..], b, c);
    }
  }
}
