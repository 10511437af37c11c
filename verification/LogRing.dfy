/**
 Two drain tasks, one per pipe of a child process, share a log file and a ring of the last
 lines. The installer's drains hold a lock across both log writes; the game's drains append
 line and newline separately. Both schedules are arbitrary.
 */
module LogRing {
  const LOG_TAIL_LINES: nat := 200

  // ---------------------------------------------------------------- the ring

  function LastN<T>(s: seq<T>, n: nat): seq<T> {
    if |s| <= n then s else s[|s| - n..]
  }

  /** `VecDeque` with capacity 200: drop the oldest line before adding to a full ring. */
  class Ring {
    var lines: seq<string>
    /** Every line ever pushed. */
    ghost var history: seq<string>

    ghost predicate Valid()
      reads this
    {
      lines == LastN(history, LOG_TAIL_LINES)
    }

    constructor ()
      ensures Valid() && lines == [] && history == []
    {
      lines, history := [], [];
    }

    method Push(line: string)
      requires Valid()
      modifies this
      ensures Valid() && history == old(history) + [line]
      ensures lines == PushRing(old(lines), line)
    {
      PushKeepsLast(history, line);
      if |lines| >= LOG_TAIL_LINES {
        lines := lines[1..];
      }
      lines := lines + [line];
      history := history + [line];
    }
  }

  function PushRing(ring: seq<string>, line: string): seq<string> {
    (if |ring| >= LOG_TAIL_LINES then ring[1..] else ring) + [line]
  }

  lemma PushKeepsLast(history: seq<string>, line: string)
    ensures PushRing(LastN(history, LOG_TAIL_LINES), line) == LastN(history + [line], LOG_TAIL_LINES)
  {
  }

  // ---------------------------------------------------------------- two producers

  datatype Pipe = Stdout | Stderr

  /** A stamped line knows its pipe; a log piece is a text or a newline. */
  datatype Line = Line(pipe: Pipe, text: string)

  datatype Piece = Text(line: Line) | Newline(pipe: Pipe)

  /** What the child writes to each pipe. */
  datatype Config = Config(out: seq<string>, err: seq<string>)

  /** Where a drain is with its current line: before the text, between text and newline, before the push. */
  datatype Stage = Idle | TextWritten | Logged

  datatype Drain = Drain(taken: nat, stage: Stage)

  datatype State = State(out: Drain, err: Drain, log: seq<Piece>, history: seq<Line>, ring: seq<string>)

  function LinesOf(c: Config, p: Pipe): seq<string> {
    match p case Stdout => c.out case Stderr => c.err
  }

  function DrainOf(s: State, p: Pipe): Drain {
    match p case Stdout => s.out case Stderr => s.err
  }

  function WithDrain(s: State, p: Pipe, d: Drain): State {
    match p case Stdout => s.(out := d) case Stderr => s.(err := d)
  }

  predicate HasLine(c: Config, s: State, p: Pipe) {
    DrainOf(s, p).taken < |LinesOf(c, p)|
  }

  function Current(c: Config, s: State, p: Pipe): Line
    requires HasLine(c, s, p)
  {
    Line(p, LinesOf(c, p)[DrainOf(s, p).taken])
  }

  ghost predicate WriteText(c: Config, s: State, t: State, p: Pipe) {
    && HasLine(c, s, p) && DrainOf(s, p).stage.Idle?
    && t == WithDrain(s, p, DrainOf(s, p).(stage := TextWritten)).(log := s.log + [Text(Current(c, s, p))])
  }

  ghost predicate WriteNewline(c: Config, s: State, t: State, p: Pipe) {
    && HasLine(c, s, p) && DrainOf(s, p).stage.TextWritten?
    && t == WithDrain(s, p, DrainOf(s, p).(stage := Logged)).(log := s.log + [Newline(p)])
  }

  ghost predicate PushLine(c: Config, s: State, t: State, p: Pipe) {
    && HasLine(c, s, p) && DrainOf(s, p).stage.Logged?
    && var line := Current(c, s, p);
       t == WithDrain(s, p, Drain(DrainOf(s, p).taken + 1, Idle))
              .(history := s.history + [line], ring := PushRing(s.ring, line.text))
  }

  /** The installer's lock: a drain may only write text when the other is not between text and newline. */
  predicate LockFree(s: State) {
    !s.out.stage.TextWritten? && !s.err.stage.TextWritten?
  }

  ghost predicate Step(c: Config, locked: bool, s: State, t: State, p: Pipe) {
    (WriteText(c, s, t, p) && (locked ==> LockFree(s))) || WriteNewline(c, s, t, p) || PushLine(c, s, t, p)
  }

  ghost predicate Next(c: Config, locked: bool, s: State, t: State) {
    exists p :: Step(c, locked, s, t, p)
  }

  const START := State(Drain(0, Idle), Drain(0, Idle), [], [], [])

  ghost predicate IsRun(c: Config, locked: bool, run: seq<State>) {
    && |run| > 0 && run[0] == START
    && forall k :: 0 <= k < |run| - 1 ==> Next(c, locked, run[k], run[k + 1])
  }

  // ---------------------------------------------------------------- ring and history

  function OfPipe(lines: seq<Line>, p: Pipe): seq<string> {
    if lines == [] then []
    else
      var n := |lines| - 1;
      OfPipe(lines[..n], p) + if lines[n].pipe == p then [lines[n].text] else []
  }

  lemma OfPipeAppend(lines: seq<Line>, l: Line, p: Pipe)
    ensures OfPipe(lines + [l], p) == OfPipe(lines, p) + if l.pipe == p then [l.text] else []
  {
    assert (lines + [l])[..|lines|] == lines;
  }

  function TextsOf(lines: seq<Line>): (r: seq<string>)
    ensures |r| == |lines| && forall k :: 0 <= k < |lines| ==> r[k] == lines[k].text
  {
    seq(|lines|, (k: nat) requires k < |lines| => lines[k].text)
  }

  predicate TakenOk(c: Config, s: State, p: Pipe) {
    DrainOf(s, p).taken <= |LinesOf(c, p)| && (!DrainOf(s, p).stage.Idle? ==> HasLine(c, s, p))
  }

  /** The history interleaves what was taken from the two pipes, each in its own order; the ring is its tail. */
  ghost predicate RingInv(c: Config, s: State) {
    && TakenOk(c, s, Stdout) && TakenOk(c, s, Stderr)
    && OfPipe(s.history, Stdout) == c.out[..s.out.taken]
    && OfPipe(s.history, Stderr) == c.err[..s.err.taken]
    && s.ring == LastN(TextsOf(s.history), LOG_TAIL_LINES)
  }

  lemma StepKeepsRingInv(c: Config, locked: bool, s: State, t: State, p: Pipe)
    requires RingInv(c, s) && Step(c, locked, s, t, p)
    ensures RingInv(c, t)
  {
    if PushLine(c, s, t, p) {
      var line := Current(c, s, p);
      OfPipeAppend(s.history, line, Stdout);
      OfPipeAppend(s.history, line, Stderr);
      assert TextsOf(s.history + [line]) == TextsOf(s.history) + [line.text];
      PushKeepsLast(TextsOf(s.history), line.text);
      hide OfPipe, LastN, PushRing, TextsOf;
      assert LinesOf(c, p)[..DrainOf(s, p).taken + 1] == LinesOf(c, p)[..DrainOf(s, p).taken] + [line.text];
    }
  }

  /** The ring, line by line: the last 200 texts of the history, in order. */
  lemma RingIsTheEnd(c: Config, s: State)
    requires RingInv(c, s)
    ensures |s.ring| == if |s.history| < 200 then |s.history| else 200
    ensures forall k :: 0 <= k < |s.ring| ==> s.ring[k] == s.history[|s.history| - |s.ring| + k].text
  {
    hide OfPipe, TakenOk, LastN, TextsOf;
    LastNAt(TextsOf(s.history), LOG_TAIL_LINES);
  }

  lemma LastNAt<T>(s: seq<T>, n: nat)
    ensures |LastN(s, n)| == if |s| < n then |s| else n
    ensures forall k :: 0 <= k < |LastN(s, n)| ==> LastN(s, n)[k] == s[|s| - |LastN(s, n)| + k]
  {
  }

  // ---------------------------------------------------------------- the installer's log

  /** Text followed by its own newline, line after line. */
  function Whole(lines: seq<Line>): seq<Piece> {
    if lines == [] then []
    else
      var last := lines[|lines| - 1];
      Whole(lines[..|lines| - 1]) + [Text(last), Newline(last.pipe)]
  }

  function InLog(s: State, p: Pipe): nat {
    DrainOf(s, p).taken + if DrainOf(s, p).stage.Logged? then 1 else 0
  }

  /** The line whose text is in the log but whose newline is not yet, if any. */
  function Pending(c: Config, s: State): seq<Piece>
    requires TakenOk(c, s, Stdout) && TakenOk(c, s, Stderr)
  {
    if s.out.stage.TextWritten? then [Text(Current(c, s, Stdout))]
    else if s.err.stage.TextWritten? then [Text(Current(c, s, Stderr))]
    else []
  }

  /** `lines` are the whole lines in the log, an order-preserving merge of both pipes. */
  ghost predicate LogIs(c: Config, s: State, lines: seq<Line>)
    requires TakenOk(c, s, Stdout) && TakenOk(c, s, Stderr)
  {
    && InLog(s, Stdout) <= |c.out| && InLog(s, Stderr) <= |c.err|
    && OfPipe(lines, Stdout) == c.out[..InLog(s, Stdout)]
    && OfPipe(lines, Stderr) == c.err[..InLog(s, Stderr)]
    && s.log == Whole(lines) + Pending(c, s)
    && !(s.out.stage.TextWritten? && s.err.stage.TextWritten?)
  }

  lemma WholeAppend(lines: seq<Line>, l: Line)
    ensures Whole(lines + [l]) == Whole(lines) + [Text(l), Newline(l.pipe)]
  {
    assert (lines + [l])[..|lines|] == lines;
  }

  lemma NewlineKeepsLog(c: Config, s: State, t: State, p: Pipe, lines: seq<Line>)
    requires RingInv(c, s) && WriteNewline(c, s, t, p) && LogIs(c, s, lines) && RingInv(c, t)
    ensures LogIs(c, t, lines + [Current(c, s, p)])
  {
    hide OfPipe, Whole, LastN, TextsOf;
    var line := Current(c, s, p);
    OfPipeAppend(lines, line, Stdout);
    OfPipeAppend(lines, line, Stderr);
    WholeAppend(lines, line);
    assert LinesOf(c, p)[..DrainOf(s, p).taken + 1] == LinesOf(c, p)[..DrainOf(s, p).taken] + [line.text];
  }

  lemma OtherStepKeepsLog(c: Config, s: State, t: State, p: Pipe, lines: seq<Line>)
    requires RingInv(c, s) && LogIs(c, s, lines) && RingInv(c, t)
    requires (WriteText(c, s, t, p) && LockFree(s)) || PushLine(c, s, t, p)
    ensures LogIs(c, t, lines)
  {
    hide OfPipe, Whole, LastN, TextsOf, PushRing;
  }

  lemma StepKeepsLog(c: Config, s: State, t: State, p: Pipe, lines: seq<Line>) returns (more: seq<Line>)
    requires RingInv(c, s) && Step(c, true, s, t, p) && LogIs(c, s, lines)
    ensures RingInv(c, t) && LogIs(c, t, more)
  {
    hide OfPipe, Whole, LogIs, TakenOk;
    StepKeepsRingInv(c, true, s, t, p);
    if WriteNewline(c, s, t, p) {
      more := lines + [Current(c, s, p)];
      NewlineKeepsLog(c, s, t, p, lines);
    } else {
      more := lines;
      OtherStepKeepsLog(c, s, t, p, lines);
    }
  }

  /**
   For every schedule of the installer's drains: the ring is the last min(200, n) lines of the
   push history, the history merges both pipes in order, and the log is such a merge too, with
   every line whole (a last line may still lack its newline while it is being written).
   */
  lemma {:induction false} InstallerDrains(c: Config, run: seq<State>) returns (lines: seq<Line>)
    requires IsRun(c, true, run)
    ensures RingInv(c, run[|run| - 1]) && LogIs(c, run[|run| - 1], lines)
  {
    if |run| == 1 {
      lines := [];
    } else {
      var front := run[..|run| - 1];
      lines := InstallerDrains(c, front);
      var s, t := run[|run| - 2], run[|run| - 1];
      assert front[|front| - 1] == s && Next(c, true, s, t);
      hide RingInv, LogIs, Step;
      var p :| Step(c, true, s, t, p);
      lines := StepKeepsLog(c, s, t, p, lines);
    }
  }

  /** Once both pipes are drained, the installer's log is a merge of all their lines, every one whole. */
  lemma InstallerLogIsComplete(c: Config, run: seq<State>) returns (lines: seq<Line>)
    requires IsRun(c, true, run)
    requires run[|run| - 1].out.taken == |c.out| && run[|run| - 1].err.taken == |c.err|
    ensures run[|run| - 1].log == Whole(lines) && OfPipe(lines, Stdout) == c.out && OfPipe(lines, Stderr) == c.err
    ensures OfPipe(run[|run| - 1].history, Stdout) == c.out && OfPipe(run[|run| - 1].history, Stderr) == c.err
  {
    hide OfPipe, Whole, RingInv, LogIs, Next;
    lines := InstallerDrains(c, run);
    DrainedLog(c, run[|run| - 1], lines);
  }

  lemma DrainedLog(c: Config, s: State, lines: seq<Line>)
    requires RingInv(c, s) && LogIs(c, s, lines) && s.out.taken == |c.out| && s.err.taken == |c.err|
    ensures s.log == Whole(lines) && OfPipe(lines, Stdout) == c.out && OfPipe(lines, Stderr) == c.err
    ensures OfPipe(s.history, Stdout) == c.out && OfPipe(s.history, Stderr) == c.err
  {
    hide OfPipe, Whole, LastN, TextsOf;
    assert c.out[..|c.out|] == c.out && c.err[..|c.err|] == c.err;
    assert Pending(c, s) == [] && Whole(lines) + [] == Whole(lines);
  }

  /** The game's drains keep the same ring and history without any lock. */
  lemma {:induction false} GameDrains(c: Config, run: seq<State>)
    requires IsRun(c, false, run)
    ensures RingInv(c, run[|run| - 1])
  {
    if |run| > 1 {
      var front := run[..|run| - 1];
      GameDrains(c, front);
      var s, t := run[|run| - 2], run[|run| - 1];
      assert front[|front| - 1] == s && Next(c, false, s, t);
      hide RingInv, Step;
      var p :| Step(c, false, s, t, p);
      StepKeepsRingInv(c, false, s, t, p);
    }
  }

  /** Two texts with no newline between them: two lines run together in the log. */
  ghost predicate Glued(log: seq<Piece>) {
    exists k :: 0 <= k < |log| - 1 && log[k].Text? && log[k + 1].Text?
  }

  lemma {:induction false} WholeAlternates(lines: seq<Line>)
    ensures |Whole(lines)| == 2 * |lines|
    ensures forall k :: 0 <= k < |Whole(lines)| ==> (Whole(lines)[k].Text? <==> k % 2 == 0)
  {
    if lines != [] {
      var front, last := lines[..|lines| - 1], lines[|lines| - 1];
      WholeAlternates(front);
      assert lines == front + [last];
      WholeAppend(front, last);
      hide Whole;
      TwoMore(Whole(front), last);
    }
  }

  lemma TwoMore(before: seq<Piece>, last: Line)
    requires |before| % 2 == 0 && forall k :: 0 <= k < |before| ==> (before[k].Text? <==> k % 2 == 0)
    ensures var after := before + [Text(last), Newline(last.pipe)];
            forall k :: 0 <= k < |after| ==> (after[k].Text? <==> k % 2 == 0)
  {
  }

  lemma LogIsNotGlued(c: Config, s: State, lines: seq<Line>)
    requires TakenOk(c, s, Stdout) && TakenOk(c, s, Stderr) && LogIs(c, s, lines)
    ensures !Glued(s.log)
    ensures !LockFree(s) ==> s.log != [] && s.log[|s.log| - 1].Text?
  {
    hide OfPipe, Whole;
    WholeAlternates(lines);
  }

  /** One unlocked step from an unglued log either keeps to the lock's rule or glues two lines. */
  lemma UnlockedStep(c: Config, s: State, t: State, p: Pipe, lines: seq<Line>)
    requires RingInv(c, s) && LogIs(c, s, lines) && Step(c, false, s, t, p)
    ensures Glued(t.log) || Step(c, true, s, t, p)
  {
    LogIsNotGlued(c, s, lines);
    hide LogIs, RingInv;
    if WriteText(c, s, t, p) && !LockFree(s) {
      var k := |s.log| - 1;
      assert t.log[k].Text? && t.log[k + 1].Text?;
    }
  }

  lemma GluedStays(c: Config, s: State, t: State)
    requires Next(c, false, s, t) && Glued(s.log)
    ensures Glued(t.log)
  {
    var k :| 0 <= k < |s.log| - 1 && s.log[k].Text? && s.log[k + 1].Text?;
    assert s.log <= t.log;
    assert t.log[k].Text? && t.log[k + 1].Text?;
  }

  /**
   The game's drains take no lock. Their log keeps its lines apart exactly in the runs that
   keep to the lock's rule all the same: no text is written while the other line still lacks
   its newline.
   */
  lemma {:induction false} GameLogWholeExactly(c: Config, run: seq<State>)
    requires IsRun(c, false, run)
    ensures !Glued(run[|run| - 1].log) <==> IsRun(c, true, run)
    decreases |run|
  {
    if IsRun(c, true, run) {
      var lines := InstallerDrains(c, run);
      hide LogIs, Glued, Step;
      LogIsNotGlued(c, run[|run| - 1], lines);
    } else {
      UnlockedRunGlues(c, run);
    }
  }

  lemma ExtendRun(c: Config, run: seq<State>, t: State)
    requires IsRun(c, true, run) && Next(c, true, run[|run| - 1], t)
    ensures IsRun(c, true, run + [t])
  {
    var longer := run + [t];
    forall k | 0 <= k < |longer| - 1
      ensures Next(c, true, longer[k], longer[k + 1])
    {
      assert longer[k] == run[k];
    }
  }

  lemma {:induction false} UnlockedRunGlues(c: Config, run: seq<State>)
    requires IsRun(c, false, run) && !IsRun(c, true, run)
    ensures Glued(run[|run| - 1].log)
    decreases |run|
  {
    hide Glued, RingInv, LogIs, Step;
    var front := run[..|run| - 1];
    var s, t := run[|run| - 2], run[|run| - 1];
    assert front[|front| - 1] == s && Next(c, false, s, t);
    if IsRun(c, true, front) {
      assert run == front + [t];
      if Next(c, true, s, t) {
        ExtendRun(c, front, t);
        assert false;
      }
      var lines := InstallerDrains(c, front);
      var p :| Step(c, false, s, t, p);
      UnlockedStep(c, s, t, p, lines);
    } else {
      UnlockedRunGlues(c, front);
      GluedStays(c, s, t);
    }
  }

  /** With one silent pipe the other drain never finds a line in the making. */
  lemma {:induction false} OnePipeKeepsLock(c: Config, run: seq<State>)
    requires IsRun(c, false, run) && (c.out == [] || c.err == [])
    ensures IsRun(c, true, run)
    decreases |run|
  {
    if |run| > 1 {
      hide RingInv, Step;
      var front := run[..|run| - 1];
      OnePipeKeepsLock(c, front);
      GameDrains(c, front);
      var s, t := run[|run| - 2], run[|run| - 1];
      assert front[|front| - 1] == s && Next(c, false, s, t);
      var p :| Step(c, false, s, t, p);
      OnePipeStep(c, s, t, p);
      ExtendRun(c, front, t);
      assert run == front + [t];
    }
  }

  lemma OnePipeStep(c: Config, s: State, t: State, p: Pipe)
    requires RingInv(c, s) && Step(c, false, s, t, p) && (c.out == [] || c.err == [])
    ensures Step(c, true, s, t, p)
  {
    hide OfPipe, LastN, TextsOf;
  }

  /** Two lines do run together: both first texts can come before both newlines. */
  lemma GameLogCanGlue(c: Config) returns (run: seq<State>)
    requires c.out != [] && c.err != []
    ensures IsRun(c, false, run)
    ensures run[|run| - 1].log
            == [Text(Line(Stdout, c.out[0])), Text(Line(Stderr, c.err[0])), Newline(Stdout), Newline(Stderr)]
    ensures run[|run| - 1].out.stage.Logged? && run[|run| - 1].err.stage.Logged?
  {
    var a, b := Text(Line(Stdout, c.out[0])), Text(Line(Stderr, c.err[0]));
    var s1 := START.(out := Drain(0, TextWritten), log := [a]);
    var s2 := s1.(err := Drain(0, TextWritten), log := [a, b]);
    var s3 := s2.(out := Drain(0, Logged), log := [a, b, Newline(Stdout)]);
    var s4 := s3.(err := Drain(0, Logged), log := [a, b, Newline(Stdout), Newline(Stderr)]);
    assert START.log + [a] == s1.log && s1.log + [b] == s2.log;
    assert s2.log + [Newline(Stdout)] == s3.log && s3.log + [Newline(Stderr)] == s4.log;
    assert WriteText(c, START, s1, Stdout) && WriteText(c, s1, s2, Stderr);
    assert WriteNewline(c, s2, s3, Stdout) && WriteNewline(c, s3, s4, Stderr);
    assert Step(c, false, START, s1, Stdout) && Step(c, false, s1, s2, Stderr);
    assert Step(c, false, s2, s3, Stdout) && Step(c, false, s3, s4, Stderr);
    run := [START, s1, s2, s3, s4];
  }

  /** Exactly which games keep the lines of their log apart in every schedule: those that write to one pipe only. */
  lemma GameLogSafeExactly(c: Config)
    ensures (forall run: seq<State> :: IsRun(c, false, run) ==> !Glued(run[|run| - 1].log))
            <==> c.out == [] || c.err == []
  {
    hide Glued, Next;
    if c.out == [] || c.err == [] {
      forall run: seq<State> | IsRun(c, false, run)
        ensures !Glued(run[|run| - 1].log)
      {
        OnePipeKeepsLock(c, run);
        GameLogWholeExactly(c, run);
      }
    } else {
      var run := GameLogCanGlue(c);
      TwoTextsAreGlued(run[|run| - 1].log);
    }
  }

  lemma TwoTextsAreGlued(log: seq<Piece>)
    requires |log| >= 2 && log[0].Text? && log[1].Text?
    ensures Glued(log)
  {
    var k := 0;
    assert log[k].Text? && log[k + 1].Text?;
  }
}
