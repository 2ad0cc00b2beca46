/** One run of `task()` (bojata.py:62-111), the callback the Tk event loop
    calls over and over.  The serial port, the port enumeration and the
    scheduler are abstract: what the hardware answers in this tick is an
    `Env`, what the tick does to the port is a trace of `Action`s, what it
    draws is a list of `Display` events and what it hands to `frame.after`
    is a list of `Request`s.  The backlog cleanup is a parameter, because
    the GUI replaces the module's `serial_buffer_cleanup` (bojata.py:56-59)
    with `rerun_app` (bojata_gui.py:230). */
module Sampler {
  import opened Wrappers
  import Utf8
  import RgbLine
  import Color
  import Ports

  /** SERIAL_BUFFER_LIMIT, TASK_DELAY, RECONNECT_DELAY and PRINT_DELAY
      (bojata.py:20-23); delays are in milliseconds. */
  const SerialBufferLimit: nat := 14
  const TaskDelay: nat := 0
  const ReconnectDelay: nat := 1000
  const PrintDelay: nat := 10000

  /** What a call into the serial library returns, or that it raised
      SerialException/OSError. */
  datatype Probe<T> = Ok(value: T) | Raises

  /** What the environment answers during one tick: the `comports()` device
      names, whether `serial.open()` raises, the `in_waiting` backlog,
      whether the module cleanup's `in_waiting`/`reset_input_buffer` raise,
      the bytes `readline()` returns, whether the `in_waiting` read for
      the debug log (bojata.py:76) raises, and whether `os.execv` fails with
      OSError (bojata.py:59, bojata_gui.py:57) instead of replacing the
      process. */
  datatype Env = Env(ports: seq<string>, openRaises: bool, backlog: Probe<nat>,
                     discardRaises: bool, line: Probe<seq<Utf8.byte>>,
                     logQueryRaises: bool, execRaises: bool)

  /** The strategy bound to `serial_buffer_cleanup`: the module's own, which
      discards the backlog and restarts the process, or the GUI's
      `rerun_app`, which restarts only while HomeFrame is current. */
  datatype Cleanup = DiscardAndRestart | RerunApp(homeCurrent: bool)

  /** Calls on the serial port and the process, in the order they happen. */
  datatype Action = ResolvePort | Open(port: string) | QueryBacklog | InvokeCleanup
                  | Discard | Restart | ReadLine | Close

  datatype Callback = RunTask | StartPrinting(color: string)

  /** `frame.after(delay, callback, ...)`. */
  datatype Request = Request(delay: nat, callback: Callback)

  /** The filled colour area, and the outlined "Printing..." text over it. */
  datatype Display = Fill(color: string) | Banner(text: string)

  /** How the tick ends: by returning, by an exception that `task` does not
      catch, or by replacing the process with `os.execv`. */
  datatype Outcome = Finished | Escaped | Restarted

  /** `serial.is_open`, `serial.port`, the backlog last read and `curr_color`
      (None until the first matching line). */
  datatype State = State(isOpen: bool, port: Option<string>, inWaiting: nat,
                         currColor: Option<string>)

  datatype TickResult = TickResult(state: State, actions: seq<Action>,
                                   displays: seq<Display>, requests: seq<Request>,
                                   outcome: Outcome)

  /** `r` preceded by the calls `acts`. */
  function After(acts: seq<Action>, r: TickResult): TickResult {
    r.(actions := acts + r.actions)
  }

  /** The except branch (bojata.py:107-111): close the port and retry later. */
  function Recover(s: State): TickResult {
    TickResult(s.(isOpen := false), [Close], [], [Request(ReconnectDelay, RunTask)], Finished)
  }

  /** The whole tick; `serial_connect` (bojata.py:67-68, bojata.py:43-51)
      when the port is closed. */
  function Tick(s: State, env: Env, cleanup: Cleanup): TickResult {
    if s.isOpen then Backlog(s, env, cleanup)
    else
      match Ports.SelectPort(env.ports)
      case None => After([ResolvePort], Recover(s))
      case Some(p) =>
        var s1 := s.(port := Some(p));
        if env.openRaises then After([ResolvePort, Open(p)], Recover(s1))
        else After([ResolvePort, Open(p)], Backlog(s1.(isOpen := true), env, cleanup))
  }

  /** bojata.py:71: `serial.in_waiting`, then the backlog test on it. */
  function Backlog(s: State, env: Env, cleanup: Cleanup): TickResult {
    match env.backlog
    case Raises => After([QueryBacklog], Recover(s))
    case Ok(n) => After([QueryBacklog], Proceed(s.(inWaiting := n), env, cleanup))
  }

  /** bojata.py:71-72: the cleanup runs when the backlog just read exceeds
      SERIAL_BUFFER_LIMIT; the read follows otherwise. */
  function Proceed(s: State, env: Env, cleanup: Cleanup): TickResult {
    if s.inWaiting <= SerialBufferLimit then Read(s, env)
    else After([InvokeCleanup], RunCleanup(s, env, cleanup))
  }

  /** The cleanup strategy, then the rest of the tick if it returns. A
      failing `os.execv` raises OSError, which the except branch of the tick
      catches like a serial fault. */
  function RunCleanup(s: State, env: Env, cleanup: Cleanup): TickResult {
    match cleanup
    case DiscardAndRestart =>
      if env.discardRaises then Recover(s)
      else if env.execRaises then After([Discard, Restart], Recover(s.(inWaiting := 0)))
      else TickResult(s.(inWaiting := 0), [Discard, Restart], [], [], Restarted)
    case RerunApp(home) =>
      if !home then Read(s, env)
      else if env.execRaises then After([Restart], Recover(s))
      else TickResult(s, [Restart], [], [], Restarted)
  }

  /** bojata.py:75-76: `readline()`, the strict UTF-8 decode, and the debug
      log's `in_waiting`. */
  function Read(s: State, env: Env): TickResult {
    match env.line
    case Raises => After([ReadLine], Recover(s))
    case Ok(bytes) =>
      match Utf8.Decode(bytes)
      case None => TickResult(s, [ReadLine], [], [], Escaped)
      case Some(text) =>
        if env.logQueryRaises then After([ReadLine], Recover(s))
        else After([ReadLine], Show(s, text))
  }

  /** The outlined text drawn while printing (bojata.py:98-99). */
  function PrintingText(color: string): string {
    "Printing...\n" + color
  }

  /** bojata.py:77-105: a matching line sets and shows `curr_color` and
      decides what runs next.  Three exceptions there are not in the except
      clause.  ValueError from an `int()` over the digit limit
      (bojata.py:79, 83) and OverflowError from a rescale (bojata.py:84-86)
      come before `curr_color` is assigned, which then keeps its old value.
      TclError from the fill (bojata.py:91-92), on a colour text Tk does not
      accept, comes after: `curr_color` is already set.  Either way nothing
      is drawn or scheduled. */
  function Show(s: State, text: string): TickResult {
    ShowDecoding(s, RgbLine.Decode(text))
  }

  /** What follows the match, by how the line decoded. */
  function ShowDecoding(s: State, d: RgbLine.Decoding): TickResult {
    match d
    case NoMatch => TickResult(s, [], [], [Request(TaskDelay, RunTask)], Finished)
    case TooManyDigits => TickResult(s, [], [], [], Escaped)
    case Decoded(x) => ShowSample(s, x)
  }

  /** bojata.py:82-105 for a decoded sample: the rescale (or OverflowError),
      then the colour. */
  function ShowSample(s: State, x: RgbLine.RawSample): TickResult {
    if Color.Overflows(x) then TickResult(s, [], [], [], Escaped)
    else Paint(s, Color.ColorText(Color.Normalize(x)), x.printFlag)
  }

  /** bojata.py:89-105 for the colour text `c`: assign it, fill the display
      (or raise TclError) and schedule what comes next. */
  function Paint(s: State, c: string, printFlag: bool): TickResult {
    var s1 := s.(currColor := Some(c));
    if !Color.TkColor(c) then TickResult(s1, [], [], [], Escaped)
    else if printFlag then
      TickResult(s1, [], [Fill(c), Banner(PrintingText(c))],
                 [Request(0, StartPrinting(c)), Request(PrintDelay, RunTask)], Finished)
    else
      TickResult(s1, [], [Fill(c)], [Request(TaskDelay, RunTask)], Finished)
  }

  // ---------------------------------------------------------------------
  // Properties of a tick.

  /** The tick gets a usable connection: already open, or a matching port
      that opens. */
  predicate Connects(s: State, env: Env) {
    s.isOpen || (Ports.SelectPort(env.ports).Some? && !env.openRaises)
  }

  /** The tick gets past the backlog test to `readline()`. */
  predicate PassesBacklog(s: State, env: Env, cleanup: Cleanup) {
    && Connects(s, env) && env.backlog.Ok?
    && (env.backlog.value <= SerialBufferLimit || cleanup == RerunApp(false))
  }

  /** The tick reaches `RGB_PATTERN.match` with `text`. */
  predicate ReadsText(s: State, env: Env, cleanup: Cleanup, text: string) {
    && PassesBacklog(s, env, cleanup)
    && env.line.Ok? && Utf8.Decode(env.line.value) == Some(text)
    && !env.logQueryRaises
  }

  /** A line that matches, but whose numbers raise ValueError or
      OverflowError before `curr_color` is assigned. */
  predicate ValueRejected(text: string) {
    || RgbLine.Decode(text).TooManyDigits?
    || (RgbLine.Decode(text).Decoded? && Color.Overflows(RgbLine.Decode(text).sample))
  }

  /** A line that decodes to a colour, but whose colour text Tk rejects. */
  predicate ColorRejected(text: string) {
    && RgbLine.Decode(text).Decoded? && !Color.Overflows(RgbLine.Decode(text).sample)
    && !Color.TkColor(Color.ColorText(Color.Normalize(RgbLine.Decode(text).sample)))
  }

  /** The read ends in an exception `task` does not catch: the line is not
      UTF-8, or it reaches the match and one of the conversions or the fill
      raises. */
  predicate ReadEscapes(env: Env) {
    && env.line.Ok?
    && (|| Utf8.Decode(env.line.value).None?
        || (&& !env.logQueryRaises
            && (ValueRejected(Utf8.Decode(env.line.value).value)
                || ColorRejected(Utf8.Decode(env.line.value).value))))
  }

  /** `readline()`, or the `in_waiting` read for the debug log, raises. */
  predicate ReadFaults(env: Env) {
    env.line.Raises? || (Utf8.Decode(env.line.value).Some? && env.logQueryRaises)
  }

  /** The strategy, or the rest of the tick after it, raises. */
  predicate CleanupFaults(env: Env, cleanup: Cleanup) {
    || (cleanup == DiscardAndRestart && (env.discardRaises || env.execRaises))
    || (cleanup == RerunApp(true) && env.execRaises)
    || (cleanup == RerunApp(false) && ReadFaults(env))
  }

  /** With a backlog of `n`, one of the calls after the backlog test raises. */
  predicate ProceedFaults(n: nat, env: Env, cleanup: Cleanup) {
    || (n <= SerialBufferLimit && ReadFaults(env))
    || (n > SerialBufferLimit && CleanupFaults(env, cleanup))
  }

  /** On an open port, one of the calls from the backlog test on raises. */
  predicate BacklogFaults(env: Env, cleanup: Cleanup) {
    env.backlog.Raises? || ProceedFaults(env.backlog.value, env, cleanup)
  }

  /** One of the calls inside the `try` raises SerialException/OSError. */
  predicate Faults(s: State, env: Env, cleanup: Cleanup) {
    !Connects(s, env) || BacklogFaults(env, cleanup)
  }

  /** Where each serial or process call comes in the body of `task`. */
  function Rank(a: Action): nat {
    match a
    case ResolvePort => 0
    case Open(_) => 1
    case QueryBacklog => 2
    case InvokeCleanup => 3
    case Discard => 4
    case Restart => 5
    case ReadLine => 6
    case Close => 7
  }

  predicate InOrder(acts: seq<Action>) {
    forall i, j :: 0 <= i < j < |acts| ==> Rank(acts[i]) < Rank(acts[j])
  }

  /** Each call ranked above the one before it. */
  predicate Chain(acts: seq<Action>) {
    forall i :: 0 < i < |acts| ==> Rank(acts[i - 1]) < Rank(acts[i])
  }

  /** A chain, all of whose calls rank at least `k`. */
  predicate ChainFrom(acts: seq<Action>, k: nat) {
    Chain(acts) && (|acts| > 0 ==> k <= Rank(acts[0]))
  }

  lemma {:induction false} ChainInOrder(acts: seq<Action>)
    requires Chain(acts)
    ensures InOrder(acts)
  {
    if |acts| > 1 {
      var tail := acts[1..];
      assert Chain(tail) by {
        forall i | 0 < i < |tail|
          ensures Rank(tail[i - 1]) < Rank(tail[i])
        {
          assert tail[i - 1] == acts[i] && tail[i] == acts[i + 1];
        }
      }
      ChainInOrder(tail);
      forall i, j | 0 <= i < j < |acts|
        ensures Rank(acts[i]) < Rank(acts[j])
      {
        if i > 0 {
          assert acts[i] == tail[i - 1] && acts[j] == tail[j - 1];
        } else {
          assert Rank(acts[0]) < Rank(acts[1]);
          if j > 1 {
            assert acts[1] == tail[0] && acts[j] == tail[j - 1];
          }
        }
      }
    }
  }

  lemma ChainConcat(a: seq<Action>, b: seq<Action>, k: nat)
    requires Chain(a) && (|a| > 0 ==> Rank(a[|a| - 1]) < k)
    requires ChainFrom(b, k)
    ensures Chain(a + b)
  {
    forall i | 0 < i < |a + b|
      ensures Rank((a + b)[i - 1]) < Rank((a + b)[i])
    {
      if i < |a| {
        assert (a + b)[i - 1] == a[i - 1] && (a + b)[i] == a[i];
      } else if i == |a| {
        assert (a + b)[i - 1] == a[i - 1] && (a + b)[i] == b[0];
      } else {
        assert (a + b)[i - 1] == b[i - 1 - |a|] && (a + b)[i] == b[i - |a|];
      }
    }
  }

  /** What the except branch leaves behind. */
  predicate Recovered(r: TickResult, s: State) {
    && !r.state.isOpen && r.state.currColor == s.currColor && r.displays == []
    && r.requests == [Request(ReconnectDelay, RunTask)] && r.outcome == Finished
  }

  /** What a matching line leaves behind: `curr_color` set to the formatted,
      normalised colour and shown; with the print flag also the banner, the
      print job at once and the next tick after PRINT_DELAY. */
  predicate Shown(r: TickResult, x: RgbLine.RawSample) {
    var c := Color.ColorText(Color.Normalize(x));
    && r.state.currColor == Some(c) && r.outcome == Finished
    && (x.printFlag ==>
          && r.displays == [Fill(c), Banner(PrintingText(c))]
          && r.requests == [Request(0, StartPrinting(c)), Request(PrintDelay, RunTask)])
    && (!x.printFlag ==> r.displays == [Fill(c)] && r.requests == [Request(TaskDelay, RunTask)])
  }

  /** What a matching line with a colour Tk rejects leaves behind:
      `curr_color` set, nothing drawn, nothing scheduled, and an escape. */
  predicate Refused(r: TickResult, x: RgbLine.RawSample) {
    && r.state.currColor == Some(Color.ColorText(Color.Normalize(x)))
    && r.displays == [] && r.requests == [] && r.outcome == Escaped
  }

  /** The number of requests that schedule `task` again. */
  function CountRunTask(rs: seq<Request>): nat {
    if rs == [] then 0
    else (if rs[0].callback == RunTask then 1 else 0) + CountRunTask(rs[1..])
  }

  lemma CountRunTaskPair(a: Request, b: Request)
    ensures CountRunTask([a, b]) == CountRunTask([a]) + CountRunTask([b])
  {
    assert [a, b][1..] == [b];
  }

  /** A tick that returns schedules exactly one further tick; one that
      escapes or restarts schedules nothing. */
  predicate OneNextTick(r: TickResult) {
    && (r.outcome == Finished ==> CountRunTask(r.requests) == 1)
    && (r.outcome != Finished ==> r.requests == [])
  }

  lemma ShowFacts(s: State, text: string)
    ensures var r := Show(s, text);
            && r.actions == [] && OneNextTick(r)
            && r.outcome == (if ValueRejected(text) || ColorRejected(text) then Escaped else Finished)
            && r.state == s.(currColor := r.state.currColor)
            && (RgbLine.Decode(text).NoMatch? ==>
                  r.state == s && r.displays == [] && r.requests == [Request(TaskDelay, RunTask)])
            && (ValueRejected(text) ==> r == TickResult(s, [], [], [], Escaped))
            && (&& RgbLine.Decode(text).Decoded? && !ValueRejected(text) && !ColorRejected(text)
                ==> Shown(r, RgbLine.Decode(text).sample))
            && (ColorRejected(text) ==> Refused(r, RgbLine.Decode(text).sample))
  {
    match RgbLine.Decode(text)
    case NoMatch =>
    case TooManyDigits =>
    case Decoded(x) =>
      if !Color.Overflows(x) {
        PaintFacts(s, Color.ColorText(Color.Normalize(x)), x.printFlag);
      }
  }

  /** Nothing past the match is a serial call. */
  lemma ShowNoActions(s: State, text: string)
    ensures Show(s, text).actions == []
  {
  }

  lemma PaintFacts(s: State, c: string, printFlag: bool)
    ensures var r := Paint(s, c, printFlag);
            && r.actions == [] && OneNextTick(r) && r.state == s.(currColor := Some(c))
            && (r.outcome == Escaped <==> !Color.TkColor(c))
            && r.outcome != Restarted
            && (!Color.TkColor(c) ==> r.displays == [] && r.requests == [])
            && (Color.TkColor(c) && printFlag ==>
                  && r.displays == [Fill(c), Banner(PrintingText(c))]
                  && r.requests == [Request(0, StartPrinting(c)), Request(PrintDelay, RunTask)])
            && (Color.TkColor(c) && !printFlag ==>
                  r.displays == [Fill(c)] && r.requests == [Request(TaskDelay, RunTask)])
  {
    CountRunTaskPair(Request(0, StartPrinting(c)), Request(PrintDelay, RunTask));
  }

  lemma ReadFacts(s: State, env: Env)
    ensures var r := Read(s, env);
            && r.actions == (if ReadFaults(env) then [ReadLine, Close] else [ReadLine])
            && r.state.port == s.port && r.state.inWaiting == s.inWaiting && OneNextTick(r)
            && (r.outcome == Escaped <==> ReadEscapes(env))
            && r.outcome != Restarted
            && (ReadFaults(env) ==> Recovered(r, s))
            && (!ReadFaults(env) ==> r.state.isOpen == s.isOpen)
  {
    match env.line
    case Raises =>
    case Ok(bytes) =>
      match Utf8.Decode(bytes)
      case None =>
      case Some(text) =>
        ShowFacts(s, text);
  }

  lemma ReadActions(s: State, env: Env)
    ensures Read(s, env).actions == (if ReadFaults(env) then [ReadLine, Close] else [ReadLine])
  {
    if env.line.Ok? && Utf8.Decode(env.line.value).Some? && !env.logQueryRaises {
      ShowNoActions(s, Utf8.Decode(env.line.value).value);
    }
  }

  lemma CleanupOrder(s: State, env: Env, cleanup: Cleanup)
    ensures ChainFrom(RunCleanup(s, env, cleanup).actions, Rank(Discard))
  {
    match cleanup
    case DiscardAndRestart =>
    case RerunApp(home) =>
      if !home {
        ReadActions(s, env);
        assert RunCleanup(s, env, cleanup) == Read(s, env);
      }
  }

  lemma CleanupFacts(s: State, env: Env, cleanup: Cleanup)
    ensures var r := RunCleanup(s, env, cleanup);
            && (Discard in r.actions <==> cleanup == DiscardAndRestart && !env.discardRaises)
            && (Close in r.actions <==> CleanupFaults(env, cleanup))
            && r.state.port == s.port && OneNextTick(r)
            && (CleanupFaults(env, cleanup) ==> Recovered(r, s))
            && (r.outcome == Restarted <==>
                  !env.execRaises
                  && ((cleanup == DiscardAndRestart && !env.discardRaises) || cleanup == RerunApp(true)))
            && (r.outcome == Escaped <==> cleanup == RerunApp(false) && ReadEscapes(env))
            && ResolvePort !in r.actions && QueryBacklog !in r.actions && InvokeCleanup !in r.actions
  {
    match cleanup
    case DiscardAndRestart =>
    case RerunApp(home) =>
      if !home {
        ReadFacts(s, env);
      }
  }

  lemma ProceedOrder(s: State, env: Env, cleanup: Cleanup)
    ensures ChainFrom(Proceed(s, env, cleanup).actions, Rank(InvokeCleanup))
  {
    if s.inWaiting <= SerialBufferLimit {
      ReadActions(s, env);
      assert Proceed(s, env, cleanup) == Read(s, env);
    } else {
      var acts := RunCleanup(s, env, cleanup).actions;
      CleanupOrder(s, env, cleanup);
      ChainConcat([InvokeCleanup], acts, Rank(Discard));
      assert Proceed(s, env, cleanup).actions == [InvokeCleanup] + acts;
    }
  }

  lemma BacklogOrder(s: State, env: Env, cleanup: Cleanup)
    ensures ChainFrom(Backlog(s, env, cleanup).actions, Rank(QueryBacklog))
  {
    if env.backlog.Ok? {
      var s1 := s.(inWaiting := env.backlog.value);
      ProceedOrder(s1, env, cleanup);
      ChainConcat([QueryBacklog], Proceed(s1, env, cleanup).actions, Rank(InvokeCleanup));
    }
  }

  lemma ProceedFacts(s: State, env: Env, cleanup: Cleanup)
    ensures var r := Proceed(s, env, cleanup);
            && ResolvePort !in r.actions && QueryBacklog !in r.actions
            && (Discard in r.actions ==> cleanup == DiscardAndRestart)
            && (InvokeCleanup in r.actions <==> s.inWaiting > SerialBufferLimit)
            && (Close in r.actions <==> ProceedFaults(s.inWaiting, env, cleanup))
            && r.state.port == s.port && OneNextTick(r)
            && (ProceedFaults(s.inWaiting, env, cleanup) ==> Recovered(r, s))
  {
    if s.inWaiting <= SerialBufferLimit {
      ReadFacts(s, env);
    } else {
      CleanupFacts(s, env, cleanup);
    }
  }

  lemma BacklogFacts(s: State, env: Env, cleanup: Cleanup)
    ensures var r := Backlog(s, env, cleanup);
            && |r.actions| > 0 && r.actions[0] == QueryBacklog
            && (ResolvePort !in r.actions)
            && (Discard in r.actions ==> cleanup == DiscardAndRestart)
            && (InvokeCleanup in r.actions <==> env.backlog.Ok? && env.backlog.value > SerialBufferLimit)
            && (Close in r.actions <==> BacklogFaults(env, cleanup))
            && r.state.port == s.port && OneNextTick(r)
            && (BacklogFaults(env, cleanup) ==> Recovered(r, s))
  {
    if env.backlog.Ok? {
      ProceedFacts(s.(inWaiting := env.backlog.value), env, cleanup);
    }
  }

  /** How a tick past the backlog test ends. */
  lemma ProceedOutcome(s: State, env: Env, cleanup: Cleanup)
    ensures var r := Proceed(s, env, cleanup);
            && (r.outcome == Restarted <==>
                  s.inWaiting > SerialBufferLimit && !env.execRaises
                  && ((cleanup == DiscardAndRestart && !env.discardRaises) || cleanup == RerunApp(true)))
            && (r.outcome == Escaped <==>
                  (s.inWaiting <= SerialBufferLimit || cleanup == RerunApp(false)) && ReadEscapes(env))
  {
    if s.inWaiting <= SerialBufferLimit {
      ReadFacts(s, env);
    } else {
      CleanupFacts(s, env, cleanup);
    }
  }

  /** A tick that gets a connection goes on with the backlog test on the
      open port, after the calls that opened it. */
  lemma Connected(s: State, env: Env, cleanup: Cleanup) returns (s1: State, acts: seq<Action>)
    requires Connects(s, env)
    ensures Tick(s, env, cleanup) == After(acts, Backlog(s1, env, cleanup))
    ensures s1.isOpen && s1.currColor == s.currColor
    ensures s.isOpen ==> s1 == s && acts == []
    ensures !s.isOpen ==> s1.port == Ports.SelectPort(env.ports)
                          && acts == [ResolvePort, Open(s1.port.value)]
  {
    if s.isOpen {
      s1, acts := s, [];
      var r := Backlog(s, env, cleanup);
      assert [] + r.actions == r.actions;
      assert After([], r) == r;
    } else {
      var p := Ports.SelectPort(env.ports).value;
      s1, acts := s.(port := Some(p)).(isOpen := true), [ResolvePort, Open(p)];
    }
  }

  /** A read that decodes to `text` goes on with the match. */
  lemma ReadReachesShow(s: State, env: Env, text: string)
    requires env.line.Ok? && Utf8.Decode(env.line.value) == Some(text) && !env.logQueryRaises
    ensures Read(s, env) == After([ReadLine], Show(s, text))
  {
  }

  lemma AfterAfter(a: seq<Action>, b: seq<Action>, r: TickResult)
    ensures After(a, After(b, r)) == After(a + b, r)
  {
    Associative(a, b, r.actions);
  }

  /** A tick that reaches the match does so on the open port, with
      `curr_color` still as it was. */
  lemma ReachesShow(s: State, env: Env, cleanup: Cleanup, text: string) returns (s2: State, acts: seq<Action>)
    requires ReadsText(s, env, cleanup, text)
    ensures Tick(s, env, cleanup) == After(acts, Show(s2, text))
    ensures s2 == s.(isOpen := true, port := s2.port, inWaiting := env.backlog.value)
    ensures s.isOpen ==> s2.port == s.port
  {
    var s1, acts0 := Connected(s, env, cleanup);
    s2 := s1.(inWaiting := env.backlog.value);
    ReadReachesShow(s2, env, text);
    var pa: seq<Action>;
    if env.backlog.value <= SerialBufferLimit {
      pa := [ReadLine];
    } else {
      AfterAfter([InvokeCleanup], [ReadLine], Show(s2, text));
      pa := [InvokeCleanup, ReadLine];
    }
    assert Proceed(s2, env, cleanup) == After(pa, Show(s2, text));
    AfterAfter([QueryBacklog], pa, Show(s2, text));
    AfterAfter(acts0, [QueryBacklog] + pa, Show(s2, text));
    acts := acts0 + ([QueryBacklog] + pa);
  }

  /** The calls of every tick happen in the order of the body: connecting
      first, the backlog test and its cleanup before `readline()`, and the
      close of the except branch last.  (No call happens twice.) */
  lemma TickInOrder(s: State, env: Env, cleanup: Cleanup)
    ensures InOrder(Tick(s, env, cleanup).actions)
  {
    if Connects(s, env) {
      var s1, acts := Connected(s, env, cleanup);
      BacklogOrder(s1, env, cleanup);
      ChainConcat(acts, Backlog(s1, env, cleanup).actions, Rank(QueryBacklog));
      assert Tick(s, env, cleanup).actions == acts + Backlog(s1, env, cleanup).actions;
    }
    ChainInOrder(Tick(s, env, cleanup).actions);
  }

  /** A tick on a closed connection first looks for a port; a tick on an
      open one never does and keeps its port. */
  lemma ConnectsFirst(s: State, env: Env, cleanup: Cleanup)
    ensures var r := Tick(s, env, cleanup);
            |r.actions| > 0 && (r.actions[0] == ResolvePort <==> !s.isOpen)
    ensures s.isOpen ==> ResolvePort !in Tick(s, env, cleanup).actions
                         && Tick(s, env, cleanup).state.port == s.port
  {
    if Connects(s, env) {
      var s1, acts := Connected(s, env, cleanup);
      BacklogFacts(s1, env, cleanup);
    }
  }

  /** No matching port: nothing is opened, the port stays unset, and the
      tick retries after RECONNECT_DELAY (bojata.py:47-48). */
  lemma NoPortRetries(s: State, env: Env, cleanup: Cleanup)
    requires !s.isOpen
    requires forall k :: 0 <= k < |env.ports| ==> !Ports.PortMatches(env.ports[k])
    ensures var r := Tick(s, env, cleanup);
            && r.actions == [ResolvePort, Close]
            && !r.state.isOpen && r.state.port == s.port
            && r.requests == [Request(ReconnectDelay, RunTask)]
  {
  }

  /** A closed connection is opened on the first matching port. */
  lemma OpensFirstMatch(s: State, env: Env, cleanup: Cleanup, i: nat)
    requires !s.isOpen
    requires i < |env.ports| && Ports.PortMatches(env.ports[i])
    requires forall j :: 0 <= j < i ==> !Ports.PortMatches(env.ports[j])
    ensures var r := Tick(s, env, cleanup);
            && |r.actions| >= 2 && r.actions[0] == ResolvePort && r.actions[1] == Open(env.ports[i])
            && r.state.port == Some(env.ports[i])
  {
    Ports.SelectPortIsFirst(env.ports, i);
    if !env.openRaises {
      var s1, acts := Connected(s, env, cleanup);
      BacklogFacts(s1, env, cleanup);
    }
  }

  /** The cleanup strategy runs exactly when the backlog read on a working
      connection exceeds SERIAL_BUFFER_LIMIT. */
  lemma CleanupIffOverLimit(s: State, env: Env, cleanup: Cleanup)
    ensures InvokeCleanup in Tick(s, env, cleanup).actions <==>
            Connects(s, env) && env.backlog.Ok? && env.backlog.value > SerialBufferLimit
  {
    if Connects(s, env) {
      var s1, acts := Connected(s, env, cleanup);
      BacklogFacts(s1, env, cleanup);
    }
  }

  /** The cleanup strategy runs before `readline()` whenever both happen. */
  lemma CleanupBeforeRead(s: State, env: Env, cleanup: Cleanup, i: nat, j: nat)
    requires var acts := Tick(s, env, cleanup).actions;
             i < |acts| && j < |acts| && acts[i] == InvokeCleanup && acts[j] == ReadLine
    ensures i < j
  {
    TickInOrder(s, env, cleanup);
  }

  /** The GUI's strategy never discards the backlog. */
  lemma RerunAppNeverDiscards(s: State, env: Env, home: bool)
    ensures Discard !in Tick(s, env, RerunApp(home)).actions
  {
    if Connects(s, env) {
      var s1, acts := Connected(s, env, RerunApp(home));
      BacklogFacts(s1, env, RerunApp(home));
    }
  }

  /** The tick restarts the process exactly when the backlog is over the
      limit, the strategy restarts and `os.execv` succeeds: the module's
      strategy always (unless reading or discarding the backlog raises), the
      GUI's only on HomeFrame. */
  lemma RestartIff(s: State, env: Env, cleanup: Cleanup)
    ensures Tick(s, env, cleanup).outcome == Restarted <==>
            && Connects(s, env) && env.backlog.Ok? && env.backlog.value > SerialBufferLimit
            && !env.execRaises
            && ((cleanup == DiscardAndRestart && !env.discardRaises) || cleanup == RerunApp(true))
  {
    if Connects(s, env) {
      var s1, acts := Connected(s, env, cleanup);
      if env.backlog.Ok? {
        ProceedOutcome(s1.(inWaiting := env.backlog.value), env, cleanup);
      }
    }
  }

  /** The tick escapes exactly when the line read is not valid UTF-8, or
      matches with a number over the digit limit, a rescale past the largest
      double or a colour text Tk rejects (UnicodeDecodeError, ValueError,
      OverflowError and TclError are not in the except tuple of
      bojata.py:107). */
  lemma EscapeIff(s: State, env: Env, cleanup: Cleanup)
    ensures Tick(s, env, cleanup).outcome == Escaped <==>
            PassesBacklog(s, env, cleanup) && ReadEscapes(env)
  {
    if Connects(s, env) {
      var s1, acts := Connected(s, env, cleanup);
      if env.backlog.Ok? {
        ProceedOutcome(s1.(inWaiting := env.backlog.value), env, cleanup);
      }
    }
  }

  /** The except branch runs exactly when one of the serial calls, or the
      cleanup's `os.execv`, raises; it
      closes the port, draws nothing, keeps `curr_color` and schedules one
      retry after RECONNECT_DELAY. */
  lemma FaultsRecover(s: State, env: Env, cleanup: Cleanup)
    ensures Close in Tick(s, env, cleanup).actions <==> Faults(s, env, cleanup)
    ensures Faults(s, env, cleanup) ==> Recovered(Tick(s, env, cleanup), s)
  {
    if Connects(s, env) {
      var s1, acts := Connected(s, env, cleanup);
      BacklogFacts(s1, env, cleanup);
    }
  }

  /** When the strategy gets as far as `os.execv` and it fails, the tick has
      attempted the restart and then closes the port and retries after
      RECONNECT_DELAY instead of ending the process. */
  lemma ExecFailureRecovers(s: State, env: Env, cleanup: Cleanup)
    requires Connects(s, env) && env.backlog.Ok? && env.backlog.value > SerialBufferLimit
    requires env.execRaises
    requires cleanup == RerunApp(true) || (cleanup == DiscardAndRestart && !env.discardRaises)
    ensures var r := Tick(s, env, cleanup);
            && Restart in r.actions && Close in r.actions && r.outcome != Restarted
            && Recovered(r, s)
  {
    var s1, acts := Connected(s, env, cleanup);
    var s2 := s1.(inWaiting := env.backlog.value);
    FaultsRecover(s, env, cleanup);
    var rc := RunCleanup(s2, env, cleanup);
    assert Restart in rc.actions;
    var rp := Proceed(s2, env, cleanup);
    assert rp.actions == [InvokeCleanup] + rc.actions;
    assert Backlog(s1, env, cleanup).actions == [QueryBacklog] + rp.actions;
    assert Tick(s, env, cleanup).actions == acts + ([QueryBacklog] + rp.actions);
  }

  /** A line the pattern rejects leaves `curr_color` and the display alone
      and schedules the next tick at TASK_DELAY only. */
  lemma RejectedLine(s: State, env: Env, cleanup: Cleanup, text: string)
    requires ReadsText(s, env, cleanup, text) && RgbLine.Decode(text).NoMatch?
    ensures var r := Tick(s, env, cleanup);
            && r.state.currColor == s.currColor && r.state.isOpen && r.displays == []
            && r.requests == [Request(TaskDelay, RunTask)] && r.outcome == Finished
  {
    var s2, acts := ReachesShow(s, env, cleanup, text);
    ShowFacts(s2, text);
  }

  /** A matching line whose numbers convert and rescale sets `curr_color`
      to the formatted, normalised colour.  When Tk accepts that text the
      display is filled with it, and with the print flag the banner is
      shown, printing starts at once and the next tick comes after
      PRINT_DELAY instead of TASK_DELAY.  When Tk rejects it the tick draws
      nothing, schedules nothing and escapes.  A matching line whose
      numbers do not convert or rescale escapes with `curr_color` kept and
      nothing drawn or scheduled. */
  lemma MatchedLine(s: State, env: Env, cleanup: Cleanup, text: string)
    requires ReadsText(s, env, cleanup, text) && !RgbLine.Decode(text).NoMatch?
    ensures var r := Tick(s, env, cleanup);
            && r.state.isOpen
            && (ValueRejected(text) ==>
                  && r.state.currColor == s.currColor
                  && r.displays == [] && r.requests == [] && r.outcome == Escaped)
            && (!ValueRejected(text) ==>
                  var x := RgbLine.Decode(text).sample;
                  && r.state.currColor == Some(Color.ColorText(Color.Normalize(x)))
                  && (Color.TkColor(Color.ColorText(Color.Normalize(x))) ==>
                        Shown(r, x) && (x.printFlag ==> Request(TaskDelay, RunTask) !in r.requests))
                  && (!Color.TkColor(Color.ColorText(Color.Normalize(x))) ==> Refused(r, x)))
  {
    var s2, acts := ReachesShow(s, env, cleanup, text);
    ShowFacts(s2, text);
  }

  /** Past the backlog test, `curr_color` and the display change only on a
      line that is read, decoded and matched. */
  lemma ProceedColor(s: State, env: Env, cleanup: Cleanup)
    ensures var r := Proceed(s, env, cleanup);
            (r.state.currColor == s.currColor && r.displays == [])
            || (&& (s.inWaiting <= SerialBufferLimit || cleanup == RerunApp(false))
                && env.line.Ok? && Utf8.Decode(env.line.value).Some? && !env.logQueryRaises
                && RgbLine.Decode(Utf8.Decode(env.line.value).value).Decoded?)
  {
    if s.inWaiting <= SerialBufferLimit || cleanup == RerunApp(false) {
      assert Proceed(s, env, cleanup).state == Read(s, env).state;
      assert Proceed(s, env, cleanup).displays == Read(s, env).displays;
      if env.line.Ok? && Utf8.Decode(env.line.value).Some? && !env.logQueryRaises {
        ShowFacts(s, Utf8.Decode(env.line.value).value);
      }
    } else {
      CleanupFacts(s, env, cleanup);
    }
  }

  /** `curr_color` and the display change only on a matching line whose
      numbers convert. */
  lemma ColorChangesOnlyOnMatch(s: State, env: Env, cleanup: Cleanup)
    ensures var r := Tick(s, env, cleanup);
            (r.state.currColor == s.currColor && r.displays == [])
            || (env.line.Ok? && Utf8.Decode(env.line.value).Some?
                && ReadsText(s, env, cleanup, Utf8.Decode(env.line.value).value)
                && RgbLine.Decode(Utf8.Decode(env.line.value).value).Decoded?)
  {
    if Connects(s, env) {
      var s1, acts := Connected(s, env, cleanup);
      if env.backlog.Ok? {
        ProceedColor(s1.(inWaiting := env.backlog.value), env, cleanup);
      }
    }
  }

  /** The loop never stops by itself: every tick that returns schedules
      exactly one further tick, and a tick that escapes or restarts
      schedules nothing. */
  lemma ExactlyOneNextTick(s: State, env: Env, cleanup: Cleanup)
    ensures OneNextTick(Tick(s, env, cleanup))
  {
    if Connects(s, env) {
      var s1, acts := Connected(s, env, cleanup);
      BacklogFacts(s1, env, cleanup);
    }
  }

  /** The sensor's red line on an open port with a small backlog. */
  lemma RedLineScenario(s: State, cleanup: Cleanup)
    requires s.isOpen
    ensures var bytes: seq<Utf8.byte> := [50, 53, 53, 44, 48, 44, 48, 13, 10];
            var r := Tick(s, Env([], false, Ok(3), false, Ok(bytes), false, false), cleanup);
            && r.state == s.(inWaiting := 3, currColor := Some("#ff0000"))
            && r.displays == [Fill("#ff0000")]
            && r.requests == [Request(TaskDelay, RunTask)]
  {
    var bytes: seq<Utf8.byte> := [50, 53, 53, 44, 48, 44, 48, 13, 10];
    var env := Env([], false, Ok(3), false, Ok(bytes), false, false);
    var text := RedLineText(bytes);
    var s2, acts := ReachesShow(s, env, cleanup, text);
    ShowRedLine(s2);
  }

  lemma RedLineText(bytes: seq<Utf8.byte>) returns (text: string)
    requires bytes == [50, 53, 53, 44, 48, 44, 48, 13, 10]
    ensures text == "255,0,0\r\n" && Utf8.Decode(bytes) == Some(text)
  {
    text := "255,0,0\r\n";
    Utf8.DecodeAscii(bytes);
    assert Utf8.AsciiText(bytes) == text;
  }

  /** `256,0,0` on the serial line: `curr_color` becomes `#1000000`, which
      Tk rejects, so the tick escapes and the sampling loop stops. */
  lemma ShowWideRedLine(s: State)
    ensures Show(s, "256,0,0\n") == TickResult(s.(currColor := Some("#1000000")), [], [], [], Escaped)
  {
    RgbLine.DecodeWideRedLine();
    assert Color.Normalize(RgbLine.RawSample(256, 0, 0, None, false)) == Color.Rgb(256, 0, 0);
    Color.ColorTextTkRejects();
  }

  /** A sample whose line has a numeral over the digit limit: `int()` raises
      ValueError, and the tick escapes with the state it had. */
  lemma ShowTooManyDigits(s: State, x: RgbLine.RawSample, cr: bool)
    requires !RgbLine.SampleFits(x)
    ensures Show(s, RgbLine.Format(x, cr)) == TickResult(s, [], [], [], Escaped)
  {
    RgbLine.DecodeFormat(x, cr, "");
    assert RgbLine.Format(x, cr) + "" == RgbLine.Format(x, cr);
  }

  /** `10,10,10` with an intensity of more than 4300 digits. */
  lemma ShowLongIntensityLine(s: State, digits: string)
    requires RgbLine.IsNumeral(digits) && !RgbLine.Fits(digits)
    ensures Show(s, "10,10,10;" + digits + "\n") == TickResult(s, [], [], [], Escaped)
  {
    RgbLine.LongIntensityRejected(digits);
  }

  /** A sample within the digit limit whose rescale overflows: OverflowError,
      and the tick escapes with the state it had. */
  lemma ShowRescaleOverflow(s: State, x: RgbLine.RawSample, cr: bool)
    requires RgbLine.SampleFits(x) && Color.Overflows(x)
    ensures Show(s, RgbLine.Format(x, cr)) == TickResult(s, [], [], [], Escaped)
  {
    RgbLine.DecodeFormat(x, cr, "");
    assert RgbLine.Format(x, cr) + "" == RgbLine.Format(x, cr);
  }

  lemma ShowRedLine(s: State)
    ensures Show(s, "255,0,0\r\n")
         == TickResult(s.(currColor := Some("#ff0000")), [], [Fill("#ff0000")],
                       [Request(TaskDelay, RunTask)], Finished)
  {
    RgbLine.DecodeRedLine();
    assert Color.Normalize(RgbLine.RawSample(255, 0, 0, None, false)) == Color.Rgb(255, 0, 0);
    Color.ColorTextRed();
    Color.ColorTextTk(Color.Rgb(255, 0, 0));
  }

  // ---------------------------------------------------------------------
  // The module globals `task` works on.

  /** The `serial` object's state, `curr_color`, and what the tick has
      handed to Tk's scheduler and canvas so far. */
  class Sampler {
    var isOpen: bool
    var port: Option<string>
    var inWaiting: nat
    var currColor: Option<string>
    var scheduled: seq<Request>
    var displayed: seq<Display>
    var trace: seq<Action>

    function Snapshot(): State
      reads this
    {
      State(isOpen, port, inWaiting, currColor)
    }

    /** A closed port with no device assigned, before any colour is read. */
    constructor ()
      ensures Snapshot() == State(false, None, 0, None)
      ensures scheduled == [] && displayed == [] && trace == []
    {
      isOpen, port, inWaiting, currColor := false, None, 0, None;
      scheduled, displayed, trace := [], [], [];
    }

    /** The object's new state is `r`'s, and `r`'s calls, drawings and
        requests were appended. */
    twostate predicate Applied(r: TickResult, outcome: Outcome)
      reads this
    {
      && Snapshot() == r.state && outcome == r.outcome
      && trace == old(trace) + r.actions
      && displayed == old(displayed) + r.displays
      && scheduled == old(scheduled) + r.requests
    }

    /** `serial.close()` and `frame.after(RECONNECT_DELAY, task)`. */
    method RecoverFromFault() returns (outcome: Outcome)
      modifies this
      ensures Applied(Recover(old(Snapshot())), outcome)
    {
      isOpen := false;
      trace := trace + [Close];
      scheduled := scheduled + [Request(ReconnectDelay, RunTask)];
      outcome := Finished;
    }

    /** `task()`: one tick, step by step, as `Tick` describes it. */
    method Task(env: Env, cleanup: Cleanup) returns (outcome: Outcome)
      modifies this
      ensures Applied(Tick(old(Snapshot()), env, cleanup), outcome)
    {
      if isOpen {
        outcome := CheckBacklog(env, cleanup);
        return;
      }
      ghost var s0, t0 := Snapshot(), trace;
      trace := trace + [ResolvePort];
      var chosen := Ports.SelectPort(env.ports);
      if chosen.None? {
        assert Snapshot() == s0;
        outcome := RecoverFromFault();
        Associative(t0, [ResolvePort], [Close]);
        return;
      }
      port := chosen;
      trace := trace + [Open(chosen.value)];
      Associative(t0, [ResolvePort], [Open(chosen.value)]);
      assert [ResolvePort] + [Open(chosen.value)] == [ResolvePort, Open(chosen.value)];
      ghost var s1 := Snapshot();
      assert s1 == s0.(port := chosen);
      if env.openRaises {
        outcome := RecoverFromFault();
        Associative(t0, [ResolvePort, Open(chosen.value)], [Close]);
        return;
      }
      isOpen := true;
      ghost var s2 := Snapshot();
      assert s2 == s1.(isOpen := true);
      outcome := CheckBacklog(env, cleanup);
      Associative(t0, [ResolvePort, Open(chosen.value)], Backlog(s2, env, cleanup).actions);
    }

    /** `if serial.in_waiting > SERIAL_BUFFER_LIMIT: serial_buffer_cleanup()`
        and the rest of the tick. */
    method CheckBacklog(env: Env, cleanup: Cleanup) returns (outcome: Outcome)
      modifies this
      ensures Applied(Backlog(old(Snapshot()), env, cleanup), outcome)
    {
      ghost var s0, t0 := Snapshot(), trace;
      trace := trace + [QueryBacklog];
      if env.backlog.Raises? {
        assert Snapshot() == s0;
        outcome := RecoverFromFault();
        Associative(t0, [QueryBacklog], [Close]);
        return;
      }
      inWaiting := env.backlog.value;
      ghost var s1 := Snapshot();
      outcome := ProceedStep(env, cleanup);
      Associative(t0, [QueryBacklog], Proceed(s1, env, cleanup).actions);
    }

    /** The backlog test on `in_waiting` and the rest of the tick. */
    method ProceedStep(env: Env, cleanup: Cleanup) returns (outcome: Outcome)
      modifies this
      ensures Applied(Proceed(old(Snapshot()), env, cleanup), outcome)
    {
      if inWaiting <= SerialBufferLimit {
        outcome := ReadAndShow(env);
        return;
      }
      ghost var s0, t0 := Snapshot(), trace;
      trace := trace + [InvokeCleanup];
      assert Snapshot() == s0;
      outcome := CleanupStep(env, cleanup);
      Associative(t0, [InvokeCleanup], RunCleanup(s0, env, cleanup).actions);
    }

    /** The strategy bound to `serial_buffer_cleanup`, and the rest of the
        tick if it returns. */
    method CleanupStep(env: Env, cleanup: Cleanup) returns (outcome: Outcome)
      modifies this
      ensures Applied(RunCleanup(old(Snapshot()), env, cleanup), outcome)
    {
      match cleanup
      case DiscardAndRestart =>
        if env.discardRaises {
          outcome := RecoverFromFault();
          return;
        }
        inWaiting := 0;
        trace := trace + [Discard, Restart];
        if env.execRaises {
          outcome := RecoverFromFault();
          return;
        }
        outcome := Restarted;
      case RerunApp(home) =>
        if !home {
          outcome := ReadAndShow(env);
          return;
        }
        trace := trace + [Restart];
        if env.execRaises {
          outcome := RecoverFromFault();
          return;
        }
        outcome := Restarted;
    }

    /** `serial.readline().decode('utf8')`, the debug log and the rest of the tick. */
    method ReadAndShow(env: Env) returns (outcome: Outcome)
      modifies this
      ensures Applied(Read(old(Snapshot()), env), outcome)
    {
      ghost var s0 := Snapshot();
      trace := trace + [ReadLine];
      if env.line.Raises? {
        outcome := RecoverFromFault();
        return;
      }
      var decoded := Utf8.Decode(env.line.value);
      if decoded.None? {
        return Escaped;
      }
      if env.logQueryRaises {
        outcome := RecoverFromFault();
        return;
      }
      assert Read(s0, env) == After([ReadLine], Show(s0, decoded.value));
      ShowNoActions(s0, decoded.value);
      outcome := ShowLine(decoded.value);
    }

    /** The match, the drawing and the scheduling of bojata.py:77-105. */
    method ShowLine(text: string) returns (outcome: Outcome)
      modifies this
      ensures Applied(Show(old(Snapshot()), text), outcome)
    {
      ghost var s0 := Snapshot();
      var sample := RgbLine.Decode(text);
      assert Show(s0, text) == ShowDecoding(s0, sample);
      if sample.NoMatch? {
        assert Show(s0, text) == TickResult(s0, [], [], [Request(TaskDelay, RunTask)], Finished);
        scheduled := scheduled + [Request(TaskDelay, RunTask)];
        return Finished;
      }
      if sample.TooManyDigits? || Color.Overflows(sample.sample) {
        assert Show(s0, text) == TickResult(s0, [], [], [], Escaped);
        return Escaped;
      }
      assert Show(s0, text) == Paint(s0, Color.ColorText(Color.Normalize(sample.sample)), sample.sample.printFlag);
      outcome := PaintColor(Color.ColorText(Color.Normalize(sample.sample)), sample.sample.printFlag);
    }

    /** bojata.py:89-105: `curr_color`, the fill, the banner and the next tick. */
    method PaintColor(c: string, printFlag: bool) returns (outcome: Outcome)
      modifies this
      ensures Applied(Paint(old(Snapshot()), c, printFlag), outcome)
    {
      outcome := Finished;
      currColor := Some(c);
      if !Color.TkColor(c) {
        return Escaped;
      }
      if printFlag {
        displayed := displayed + [Fill(c), Banner(PrintingText(c))];
        scheduled := scheduled + [Request(0, StartPrinting(c)), Request(PrintDelay, RunTask)];
        return;
      }
      displayed := displayed + [Fill(c)];
      scheduled := scheduled + [Request(TaskDelay, RunTask)];
    }
  }
}
