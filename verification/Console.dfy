/**
 * The interactive console (libs/lxcpp/commands/console.cpp): keyboard to PTY and
 * PTY to screen through two buffers, with in-band commands and terminal switching.
 * One session, from the first event to the quit.
 */
module Consoles {
  import opened Arithmetic
  import opened Bytes
  import opened IoBuffers

  const KEY_QUIT: Byte := 0x1d
  const KEY_SERVICE: Byte := 0x01
  const KEY_Q: Byte := 0x71
  const KEY_N: Byte := 0x6e
  const KEY_P: Byte := 0x70

  /** ^], ^a and three letters: a control character is its letter without the high bits. */
  lemma Keys()
    ensures KEY_QUIT == ']' as int - 0x40 && KEY_SERVICE == 'a' as int - 0x60
    ensures KEY_Q == 'q' as int && KEY_N == 'n' as int && KEY_P == 'p' as int
  {
  }

  const MAX_TERMINALS: nat := 0x8000_0000

  const STDIN_FILENO := 0
  const STDOUT_FILENO := 1

  datatype QuitReason = NoReason | User | Hup | Err

  datatype Mode = Mode(input: bool, output: bool)

  datatype Events = Events(input: bool, output: bool, hup: bool, err: bool)

  /** One readiness event with what its read and write calls bring. */
  datatype Event =
    | OnPTY(events: Events, r: int, data: seq<Byte>, w: int)
    | OnStdInput(events: Events, r: int, data: seq<Byte>)
    | OnStdOutput(events: Events, w: int)

  /** `typed` is every chunk the keyboard ever delivered. */
  datatype State = State(
    count: nat,
    num: int,
    service: bool,
    quit: QuitReason,
    appToTerm: Pipe,
    termToApp: Pipe,
    typed: seq<seq<Byte>>)

  /** consoleChange's index: an int step, then unsigned 32-bit arithmetic. */
  function Turn(num: int, count: nat, step: int): int
    requires count > 0
  {
    (num + step + count) % 0x1_0000_0000 % count
  }

  function CheckForError(quit: QuitReason, events: Events): QuitReason {
    if events.err then Err else if events.hup then Hup else quit
  }

  function HandleSpecial(s: State, key: Byte): (State, bool)
    requires s.count > 0
  {
    if s.service then
      var t := s.(service := false);
      if key == KEY_Q then (t.(quit := User), true)
      else if key == KEY_N then (t.(num := Turn(s.num, s.count, 1)), true)
      else if key == KEY_P then (t.(num := Turn(s.num, s.count, -1)), true)
      else (t, true)
    else if key == KEY_QUIT then (s.(quit := User), true)
    else if key == KEY_SERVICE then (s.(service := true), true)
    else (s, false)
  }

  /** The system calls take and give no more than they are offered. */
  predicate Possible(s: State, e: Event) {
    match e
    case OnPTY(ev, r, data, w) =>
      && (ev.input ==> ReadResult(r, data, IO_BUFFER_SIZE - |s.appToTerm.buf|))
      && (ev.output && s.termToApp.buf != [] ==> -1 <= w <= |s.termToApp.buf|)
    case OnStdInput(ev, r, data) =>
      ev.input ==> ReadResult(r, data, IO_BUFFER_SIZE - |s.termToApp.buf|)
    case OnStdOutput(ev, w) =>
      ev.output && s.appToTerm.buf != [] ==> -1 <= w <= |s.appToTerm.buf|
  }

  function Step(s: State, e: Event): State
    requires s.count > 0 && Possible(s, e)
  {
    match e
    case OnPTY(ev, r, data, w) =>
      s.(appToTerm := if ev.input then s.appToTerm.Fill(Got(r, data)) else s.appToTerm,
         termToApp := if ev.output && s.termToApp.buf != [] then s.termToApp.Drain(Put(w)) else s.termToApp,
         quit := CheckForError(s.quit, ev))
    case OnStdInput(ev, r, data) =>
      if ev.input && r > 0 then
        var t := s.(typed := s.typed + [data]);
        var (u, special) := HandleSpecial(t, data[0]);
        if r == 1 && special then u
        else t.(termToApp := t.termToApp.Fill(data), quit := CheckForError(t.quit, ev))
      else
        s.(quit := CheckForError(s.quit, ev))
    case OnStdOutput(ev, w) =>
      s.(appToTerm := if ev.output && s.appToTerm.buf != [] then s.appToTerm.Drain(Put(w)) else s.appToTerm,
         quit := CheckForError(s.quit, ev))
  }

  // -------------------------------------------- what the keyboard input means

  /** A chunk is a command if it is one byte, and either an escape key or anything after ^a. */
  predicate IsCommand(service: bool, chunk: seq<Byte>) {
    |chunk| == 1 && (service || chunk[0] == KEY_QUIT || chunk[0] == KEY_SERVICE)
  }

  /** Is the next one-byte chunk the second half of a ^a command? */
  predicate Service(typed: seq<seq<Byte>>) {
    if typed == [] then false
    else
      var before, chunk := Service(typed[..|typed| - 1]), typed[|typed| - 1];
      if IsCommand(before, chunk) then !before && chunk[0] == KEY_SERVICE else before
  }

  /** The input without its commands. */
  function Text(typed: seq<seq<Byte>>): seq<Byte> {
    if typed == [] then []
    else
      var before, chunk := typed[..|typed| - 1], typed[|typed| - 1];
      Text(before) + (if IsCommand(Service(before), chunk) then [] else chunk)
  }

  /** "^a n" commands minus "^a p" commands. */
  function Moves(typed: seq<seq<Byte>>): int {
    if typed == [] then 0
    else
      var before, chunk := typed[..|typed| - 1], typed[|typed| - 1];
      Moves(before) + (if Service(before) && |chunk| == 1 then Direction(chunk[0]) else 0)
  }

  function Direction(key: Byte): int {
    if key == KEY_N then 1 else if key == KEY_P then -1 else 0
  }

  predicate AskedToQuit(typed: seq<seq<Byte>>) {
    typed != [] &&
    var before, chunk := typed[..|typed| - 1], typed[|typed| - 1];
    AskedToQuit(before) || (if Service(before) then chunk == [KEY_Q] else chunk == [KEY_QUIT])
  }

  // ------------------------------------------------------------- whole sessions

  /** The place `moves` steps around a circle of `count`. */
  function Place(start: int, moves: int, count: nat): (p: int)
    requires count > 0
    ensures 0 <= p < count
  {
    (start + moves) % count
  }

  predicate Inv(s: State, start: nat) {
    && 0 < s.count < MAX_TERMINALS
    && s.appToTerm.Conserves() && s.termToApp.Conserves()
    && s.termToApp.taken == Text(s.typed)
    && s.service == Service(s.typed)
    && s.num == Place(start, Moves(s.typed), s.count)
    && (AskedToQuit(s.typed) ==> s.quit != NoReason)
    && (s.quit == User ==> AskedToQuit(s.typed))
  }

  /** The unsigned detour is a step around the circle. */
  lemma {:induction false} TurnIsModular(start: nat, moves: int, count: nat, step: int)
    requires 0 < count < MAX_TERMINALS && -1 <= step <= 1
    ensures Turn(Place(start, moves, count), count, step) == Place(start, moves + step, count)
  {
    var num := Place(start, moves, count);
    var q := (start + moves) / count;
    assert start + moves == q * count + num;
    assert start + moves + step == (num + step + count) + (q - 1) * count;
    SameRemainder(start + moves + step, num + step + count, q - 1, count);
  }

  /** What one more chunk adds to the reading of the input. */
  lemma OneMoreChunk(typed: seq<seq<Byte>>, chunk: seq<Byte>)
    ensures var more := typed + [chunk];
      && Text(more) == Text(typed) + (if IsCommand(Service(typed), chunk) then [] else chunk)
      && Service(more) == (if IsCommand(Service(typed), chunk) then !Service(typed) && chunk[0] == KEY_SERVICE else Service(typed))
      && Moves(more) == Moves(typed) + (if Service(typed) && |chunk| == 1 then Direction(chunk[0]) else 0)
      && (AskedToQuit(more) <==> AskedToQuit(typed) || (if Service(typed) then chunk == [KEY_Q] else chunk == [KEY_QUIT]))
  {
    var more := typed + [chunk];
    assert more[..|more| - 1] == typed && more[|more| - 1] == chunk;
  }

  lemma {:induction false} StdInputKeeps(s: State, start: nat, e: Event)
    requires Inv(s, start) && Possible(s, e) && e.OnStdInput?
    ensures Inv(Step(s, e), start)
  {
    hide Text, Service, Moves, AskedToQuit, Turn, Place;
    if e.events.input && e.r > 0 {
      OneMoreChunk(s.typed, e.data);
      FillConserves(s.termToApp, e.data);
      TurnIsModular(start, Moves(s.typed), s.count, 1);
      TurnIsModular(start, Moves(s.typed), s.count, -1);
    }
  }

  lemma {:induction false} StepKeeps(s: State, start: nat, e: Event)
    requires Inv(s, start) && Possible(s, e)
    ensures Inv(Step(s, e), start)
  {
    hide Text, Service, Moves, AskedToQuit, Turn, Place;
    match e
    case OnPTY(ev, r, data, w) =>
      if ev.input { FillConserves(s.appToTerm, Got(r, data)); }
      if ev.output && s.termToApp.buf != [] { DrainConserves(s.termToApp, Put(w)); }
    case OnStdInput(ev, r, data) =>
      StdInputKeeps(s, start, e);
    case OnStdOutput(ev, w) =>
      if ev.output && s.appToTerm.buf != [] { DrainConserves(s.appToTerm, Put(w)); }
  }

  predicate Run(s: State, es: seq<Event>)
    decreases es
  {
    s.count > 0 && (es == [] || (Possible(s, es[0]) && Run(Step(s, es[0]), es[1..])))
  }

  function After(s: State, es: seq<Event>): State
    requires Run(s, es)
    decreases es
  {
    if es == [] then s else After(Step(s, es[0]), es[1..])
  }

  function Begin(count: nat, start: nat): State {
    State(count, start, false, NoReason, EMPTY_PIPE, EMPTY_PIPE, [])
  }

  lemma {:induction false} RunKeeps(s: State, start: nat, es: seq<Event>)
    requires Run(s, es) && Inv(s, start)
    ensures Inv(After(s, es), start) && After(s, es).count == s.count
    decreases es
  {
    hide Inv;
    if es != [] {
      StepKeeps(s, start, es[0]);
      RunKeeps(Step(s, es[0]), start, es[1..]);
    }
  }

  lemma BeginInv(count: nat, start: nat)
    requires start < count < MAX_TERMINALS
    ensures Inv(Begin(count, start), start)
  {
    DivisionIs(start, 0, start, count);
  }

  lemma InvMeans(s: State, start: nat)
    requires Inv(s, start)
    ensures s.termToApp.given + s.termToApp.buf == s.termToApp.taken == Text(s.typed)
    ensures s.appToTerm.given + s.appToTerm.buf == s.appToTerm.taken
    ensures s.count > 0 && s.num == Place(start, Moves(s.typed), s.count)
    ensures AskedToQuit(s.typed) ==> s.quit != NoReason
  {
    hide Text, Service, Moves, AskedToQuit, Place;
  }

  /**
   * In every session: what went to the PTYs, followed by what waits, is the input
   * without its commands; what the PTYs sent is on the screen or waits; the terminal
   * is the first one moved by the switch commands, around the circle.
   */
  lemma {:induction false} SessionIsFaithful(count: nat, start: nat, es: seq<Event>)
    requires 0 < count < MAX_TERMINALS && start < count && Run(Begin(count, start), es)
    ensures var s := After(Begin(count, start), es);
            && s.termToApp.given + s.termToApp.buf == Text(s.typed)
            && s.appToTerm.given + s.appToTerm.buf == s.appToTerm.taken
            && s.num == Place(start, Moves(s.typed), count)
            && 0 <= s.num < count
            && (AskedToQuit(s.typed) ==> s.quit != NoReason)
  {
    hide Inv, Run, After, Place, Text, Moves, AskedToQuit, Service, Turn;
    BeginInv(count, start);
    RunKeeps(Begin(count, start), start, es);
    InvMeans(After(Begin(count, start), es), start);
  }

  /** The chunks that the keyboard's read calls brought. */
  function ChunksRead(es: seq<Event>): seq<seq<Byte>> {
    if es == [] then []
    else
      (if es[0].OnStdInput? && es[0].events.input && es[0].r > 0 then [es[0].data] else []) + ChunksRead(es[1..])
  }

  /** What the PTYs' read calls brought, one after another. */
  function OutputRead(es: seq<Event>): seq<Byte> {
    if es == [] then []
    else (if es[0].OnPTY? && es[0].events.input && es[0].r > 0 then es[0].data else []) + OutputRead(es[1..])
  }

  /** One event: the reads add exactly what they brought, the writes exactly the number of bytes they took. */
  lemma OneEventCounts(s: State, e: Event)
    requires s.count > 0 && Possible(s, e)
    ensures var t := Step(s, e);
            && t.typed == s.typed + (if e.OnStdInput? && e.events.input && e.r > 0 then [e.data] else [])
            && t.appToTerm.taken == s.appToTerm.taken + (if e.OnPTY? && e.events.input && e.r > 0 then e.data else [])
            && |t.termToApp.given| == |s.termToApp.given| +
                 (if e.OnPTY? && e.events.output && s.termToApp.buf != [] && e.w > 0 then e.w else 0)
            && |t.appToTerm.given| == |s.appToTerm.given| +
                 (if e.OnStdOutput? && e.events.output && s.appToTerm.buf != [] && e.w > 0 then e.w else 0)
  {
    hide Turn;
    assert s.typed + [] == s.typed && s.appToTerm.taken + [] == s.appToTerm.taken;
  }

  lemma {:induction false} RunCounts(s: State, es: seq<Event>)
    requires Run(s, es)
    ensures After(s, es).typed == s.typed + ChunksRead(es)
    ensures After(s, es).appToTerm.taken == s.appToTerm.taken + OutputRead(es)
    decreases es
  {
    hide Step;
    if es == [] {
      assert s.typed + [] == s.typed && s.appToTerm.taken + [] == s.appToTerm.taken;
    } else {
      OneEventCounts(s, es[0]);
      RunCounts(Step(s, es[0]), es[1..]);
      var c, o := Step(s, es[0]).typed[|s.typed|..], Step(s, es[0]).appToTerm.taken[|s.appToTerm.taken|..];
      assert s.typed + c + ChunksRead(es[1..]) == s.typed + (c + ChunksRead(es[1..]));
      assert s.appToTerm.taken + o + OutputRead(es[1..]) == s.appToTerm.taken + (o + OutputRead(es[1..]));
    }
  }

  /**
   * From the first event on: written and waiting keyboard bytes are what the keyboard's read
   * calls brought, without the commands; written and waiting screen bytes are what the
   * PTYs' read calls brought.
   */
  lemma {:induction false} ConsoleIsFaithful(count: nat, start: nat, es: seq<Event>)
    requires 0 < count < MAX_TERMINALS && start < count && Run(Begin(count, start), es)
    ensures var s := After(Begin(count, start), es);
            && s.termToApp.given + s.termToApp.buf == Text(ChunksRead(es))
            && s.appToTerm.given + s.appToTerm.buf == OutputRead(es)
            && s.num == Place(start, Moves(ChunksRead(es)), count)
  {
    hide Step, Place, Moves, Text, Run, After;
    SessionIsFaithful(count, start, es);
    RunCounts(Begin(count, start), es);
    assert [] + ChunksRead(es) == ChunksRead(es) && [] + OutputRead(es) == OutputRead(es);
  }

  /** The event reads a command from the keyboard. */
  predicate ReadsCommand(s: State, e: Event)
    requires Possible(s, e)
  {
    e.OnStdInput? && e.events.input && e.r > 0 && IsCommand(s.service, e.data)
  }

  /** An error ends the session, else a hang-up does; but with a command neither is looked at, and only a quit command ends it. */
  lemma EventEnds(s: State, e: Event)
    requires s.count > 0 && Possible(s, e)
    ensures !ReadsCommand(s, e) ==> Step(s, e).quit == if e.events.err then Err else if e.events.hup then Hup else s.quit
    ensures ReadsCommand(s, e) ==>
              Step(s, e).quit == if e.data == (if s.service then [KEY_Q] else [KEY_QUIT]) then User else s.quit
  {
    hide Turn;
  }

  /** n times "^a n" and then n times "^a p". */
  function ThereAndBack(n: nat): seq<seq<Byte>> {
    Repeat(n, [[KEY_SERVICE], [KEY_N]]) + Repeat(n, [[KEY_SERVICE], [KEY_P]])
  }

  function Repeat(n: nat, keys: seq<seq<Byte>>): seq<seq<Byte>> {
    if n == 0 then [] else Repeat(n - 1, keys) + keys
  }

  lemma {:induction false} RepeatMoves(before: seq<seq<Byte>>, n: nat, key: Byte)
    requires !Service(before) && key in {KEY_N, KEY_P}
    ensures var typed := before + Repeat(n, [[KEY_SERVICE], [key]]);
            && !Service(typed) && Text(typed) == Text(before)
            && Moves(typed) - Moves(before) == n * Direction(key)
  {
    hide Text, Service, Moves, AskedToQuit;
    var keys := [[KEY_SERVICE], [key]];
    if n == 0 {
      assert before + Repeat(n, keys) == before;
    } else {
      RepeatMoves(before, n - 1, key);
      var less := before + Repeat(n - 1, keys);
      var half := less + [[KEY_SERVICE]];
      OneMoreChunk(less, [KEY_SERVICE]);
      OneMoreChunk(half, [key]);
      assert before + Repeat(n, keys) == half + [[key]];
    }
  }

  /** Whatever was typed before, going n terminals on and n back changes neither the terminal nor the text. */
  lemma ThereAndBackReturns(before: seq<seq<Byte>>, n: nat)
    requires !Service(before)
    ensures Moves(before + ThereAndBack(n)) == Moves(before)
    ensures Text(before + ThereAndBack(n)) == Text(before)
  {
    hide Text, Service, Moves, AskedToQuit;
    var there := Repeat(n, [[KEY_SERVICE], [KEY_N]]);
    RepeatMoves(before, n, KEY_N);
    RepeatMoves(before + there, n, KEY_P);
    assert before + ThereAndBack(n) == before + there + Repeat(n, [[KEY_SERVICE], [KEY_P]]);
  }

  // ------------------------------------------------------- which terminal a byte reaches

  /** The state after a events of a run. */
  function StateAt(s: State, es: seq<Event>, a: nat): (t: State)
    requires Run(s, es) && a <= |es|
    ensures t.count > 0 && (a < |es| ==> Possible(t, es[a]))
    decreases a
  {
    if a == 0 then s else StateAt(Step(s, es[0]), es[1..], a - 1)
  }

  lemma {:induction false} StateNext(s: State, es: seq<Event>, a: nat)
    requires Run(s, es) && a < |es|
    ensures StateAt(s, es, a + 1) == Step(StateAt(s, es, a), es[a])
    decreases a
  {
    hide Step, Possible;
    if a > 0 { StateNext(Step(s, es[0]), es[1..], a - 1); }
  }

  lemma {:induction false} StateAtKeeps(s: State, start: nat, es: seq<Event>, a: nat)
    requires Run(s, es) && a <= |es| && Inv(s, start)
    ensures Inv(StateAt(s, es, a), start) && StateAt(s, es, a).count == s.count
    decreases a
  {
    hide Inv, Step, Possible;
    if a > 0 {
      StepKeeps(s, start, es[0]);
      StepGrows(s, es[0]);
      StateAtKeeps(Step(s, es[0]), start, es[1..], a - 1);
    }
  }

  lemma StepGrows(s: State, e: Event)
    requires s.count > 0 && Possible(s, e)
    ensures var t := Step(s, e);
            && t.count == s.count
            && s.termToApp.taken <= t.termToApp.taken && s.termToApp.given <= t.termToApp.given
            && (s.termToApp.taken != t.termToApp.taken ==> t.termToApp.given == s.termToApp.given && t.num == s.num)
            && (s.termToApp.given != t.termToApp.given ==> t.termToApp.taken == s.termToApp.taken && t.num == s.num)
  {
    hide Turn;
  }

  /** What was taken from the keyboard or given to the PTYs stays so. */
  lemma {:induction false} StatesGrow(s: State, es: seq<Event>, a: nat, b: nat)
    requires Run(s, es) && a <= b <= |es|
    ensures StateAt(s, es, a).termToApp.taken <= StateAt(s, es, b).termToApp.taken
    ensures StateAt(s, es, a).termToApp.given <= StateAt(s, es, b).termToApp.given
    decreases b
  {
    hide Step, Possible, StateAt;
    if a < b {
      StatesGrow(s, es, a, b - 1);
      StateNext(s, es, b - 1);
      StepGrows(StateAt(s, es, b - 1), es[b - 1]);
    }
  }

  /** Event a of the run takes byte i of the text from the keyboard. */
  predicate Types(s: State, es: seq<Event>, a: nat, i: nat)
    requires Run(s, es)
  {
    a < |es| && |StateAt(s, es, a).termToApp.taken| <= i < |StateAt(s, es, a + 1).termToApp.taken|
  }

  /** Event b of the run writes byte i of the text to the PTY then shown. */
  predicate Sends(s: State, es: seq<Event>, b: nat, i: nat)
    requires Run(s, es)
  {
    b < |es| && |StateAt(s, es, b).termToApp.given| <= i < |StateAt(s, es, b + 1).termToApp.given|
  }

  lemma PlacesAgree(start: int, m: int, n: int, count: nat)
    requires count > 0
    ensures Place(start, m, count) == Place(start, n, count) <==> (n - m) % count == 0
  {
    var p, q := (start + m) / count, (start + n) / count;
    var x, y := Place(start, m, count), Place(start, n, count);
    assert start + m == p * count + x && start + n == q * count + y;
    assert n - m == (q - p) * count + (y - x);
    SameRemainder(n - m, y - x, q - p, count);
    if y - x >= 0 {
      DivisionIs(y - x, 0, y - x, count);
    } else {
      DivisionIs(y - x, -1, y - x + count, count);
    }
  }

  /** A byte is typed before it is sent, arrives as it was typed, and ... */
  lemma SentAsTyped(s: State, start: nat, es: seq<Event>, a: nat, b: nat, i: nat)
    requires Run(s, es) && Inv(s, start) && Types(s, es, a, i) && Sends(s, es, b, i)
    ensures a < b && StateAt(s, es, b + 1).termToApp.given[i] == StateAt(s, es, a + 1).termToApp.taken[i]
  {
    hide Step, Possible, StateAt, Inv, Run;
    var sent := StateAt(s, es, b + 1);
    StateAtKeeps(s, start, es, b + 1);
    InvMeans(sent, start);
    assert sent.termToApp.given <= sent.termToApp.taken;
    StateNext(s, es, b);
    StepGrows(StateAt(s, es, b), es[b]);
    if b < a {
      StatesGrow(s, es, b + 1, a);
    } else {
      StatesGrow(s, es, a + 1, b + 1);
    }
  }

  /**
   * ... reaches the terminal it was typed at exactly if the switch commands between the two
   * events go around the circle: if there are none, for example.
   */
  lemma OwnTerminalExactly(s: State, start: nat, es: seq<Event>, a: nat, b: nat, i: nat)
    requires Run(s, es) && Inv(s, start) && Types(s, es, a, i) && Sends(s, es, b, i)
    ensures var typing, sending := StateAt(s, es, a), StateAt(s, es, b);
            sending.num == typing.num <==> (Moves(sending.typed) - Moves(typing.typed)) % s.count == 0
  {
    hide Step, Possible, StateAt, Inv, Moves, Place;
    StateAtKeeps(s, start, es, a);
    StateAtKeeps(s, start, es, b);
    InvMeans(StateAt(s, es, a), start);
    InvMeans(StateAt(s, es, b), start);
    PlacesAgree(start, Moves(StateAt(s, es, a).typed), Moves(StateAt(s, es, b).typed), s.count);
  }

  /** Of two terminals, the first is shown: "x" is typed, then ^a n, and only then the PTY takes the byte. */
  function SwitchWhilePending(): seq<Event> {
    var readable, writable := Events(true, false, false, false), Events(false, true, false, false);
    [OnStdInput(readable, 1, [0x78]), OnStdInput(readable, 1, [KEY_SERVICE]), OnStdInput(readable, 1, [KEY_N]),
     OnPTY(writable, 0, [], 1)]
  }

  /** The byte goes to the second terminal. */
  lemma SwitchMisdelivers()
    ensures var s, es := Begin(2, 0), SwitchWhilePending();
            && Run(s, es) && Types(s, es, 0, 0) && Sends(s, es, 3, 0)
            && StateAt(s, es, 0).num == 0 && StateAt(s, es, 3).num == 1
  {
    var s, es := Begin(2, 0), SwitchWhilePending();
    var x: seq<Byte>, a: seq<Byte>, n: seq<Byte> := [0x78], [KEY_SERVICE], [KEY_N];
    var waiting := Pipe(x, x, []);
    var s1 := s.(termToApp := waiting, typed := [x]);
    var s2 := s1.(service := true, typed := [x, a]);
    var s3 := s1.(num := 1, typed := [x, a, n]);
    var s4 := s3.(termToApp := Pipe([], x, x));
    assert [] + x == x && [] + [x] == [x] && [x] + [a] == [x, a] && [x, a] + [n] == [x, a, n];
    assert Step(s, es[0]) == s1;
    assert Step(s1, es[1]) == s2;
    assert Turn(0, 2, 1) == 1;
    assert Step(s2, es[2]) == s3;
    assert x[1..] == [] && x[..1] == x;
    assert Step(s3, es[3]) == s4;
    assert Possible(s, es[0]) && Possible(s1, es[1]) && Possible(s2, es[2]) && Possible(s3, es[3]);
    hide Step, Possible, Turn;
    assert es[1..][1..] == es[2..] && es[2..][1..] == es[3..] && es[3..][1..] == [];
    assert Run(s3, es[3..]) && Run(s2, es[2..]) && Run(s1, es[1..]);
    StateNext(s, es, 0);
    StateNext(s, es, 1);
    StateNext(s, es, 2);
    StateNext(s, es, 3);
  }

  // ----------------------------------------------------------------- the object

  /** mPast is what the session has done so far; mInterest what epoll watches. */
  class Console {
    const mTerminals: seq<int>
    var mTerminalNum: int
    var mServiceMode: bool
    var mQuitReason: QuitReason
    const mAppToTerm: array<Byte>
    var mAppToTermOffset: int
    const mTermToApp: array<Byte>
    var mTermToAppOffset: int
    var mInterest: map<int, Mode>
    ghost var mPast: State
    ghost const mStart: nat

    /** Only the shown PTY, the keyboard and the screen are watched, for output exactly while there is some. */
    ghost predicate Watches()
      requires 0 <= mTerminalNum < |mTerminals|
      reads this
    {
      mInterest == map[
        STDIN_FILENO := Mode(true, false),
        STDOUT_FILENO := Mode(false, mAppToTermOffset != 0),
        mTerminals[mTerminalNum] := Mode(true, mTermToAppOffset != 0)]
    }

    ghost predicate Buffers()
      reads this, mAppToTerm, mTermToApp
    {
      && mAppToTerm != mTermToApp && mAppToTerm.Length == mTermToApp.Length == IO_BUFFER_SIZE
      && 0 <= mAppToTermOffset <= IO_BUFFER_SIZE && mPast.appToTerm.buf == mAppToTerm[..mAppToTermOffset]
      && 0 <= mTermToAppOffset <= IO_BUFFER_SIZE && mPast.termToApp.buf == mTermToApp[..mTermToAppOffset]
    }

    ghost predicate Agrees()
      reads this, mAppToTerm, mTermToApp
    {
      && (forall i :: 0 <= i < |mTerminals| ==> mTerminals[i] != STDIN_FILENO && mTerminals[i] != STDOUT_FILENO)
      && mPast.count == |mTerminals| < MAX_TERMINALS && mPast.num == mTerminalNum && 0 <= mTerminalNum < |mTerminals|
      && mPast.service == mServiceMode && mPast.quit == mQuitReason
      && Buffers() && Watches()
    }

    ghost predicate Valid()
      reads this, mAppToTerm, mTermToApp
    {
      Agrees() && Inv(mPast, mStart)
    }

    constructor (terminals: seq<int>, terminalNum: nat)
      requires terminalNum < |terminals| < MAX_TERMINALS
      requires forall i :: 0 <= i < |terminals| ==> terminals[i] != STDIN_FILENO && terminals[i] != STDOUT_FILENO
      ensures Valid() && fresh(mAppToTerm) && fresh(mTermToApp)
      ensures mTerminals == terminals && mPast == Begin(|terminals|, terminalNum)
    {
      mTerminals, mTerminalNum, mStart := terminals, terminalNum, terminalNum;
      mServiceMode, mQuitReason := false, NoReason;
      mAppToTerm, mAppToTermOffset := new Byte[IO_BUFFER_SIZE], 0;
      mTermToApp, mTermToAppOffset := new Byte[IO_BUFFER_SIZE], 0;
      mInterest := map[STDIN_FILENO := Mode(true, false), STDOUT_FILENO := Mode(false, false),
                       terminals[terminalNum] := Mode(true, false)];
      mPast := Begin(|terminals|, terminalNum);
      BeginInv(|terminals|, terminalNum);
    }

    /** A terminal number out of range is refused. */
    static method Create(terminals: seq<int>, terminalNum: nat) returns (c: Console?)
      requires |terminals| < MAX_TERMINALS
      requires forall i :: 0 <= i < |terminals| ==> terminals[i] != STDIN_FILENO && terminals[i] != STDOUT_FILENO
      ensures c == null <==> terminalNum >= |terminals|
      ensures c != null ==> fresh(c) && c.Valid() && c.mPast == Begin(|terminals|, terminalNum)
    {
      if terminalNum >= |terminals| {
        return null;
      }
      c := new Console(terminals, terminalNum);
    }

    method CheckForErrors(events: Events)
      requires Agrees()
      modifies this`mQuitReason, this`mPast
      ensures Agrees() && mPast == old(mPast).(quit := CheckForError(old(mPast).quit, events))
    {
      if events.hup {
        mQuitReason := Hup;
      }
      if events.err {
        mQuitReason := Err;
      }
      mPast := mPast.(quit := mQuitReason);
    }

    method ReadPTY(r: int, data: seq<Byte>)
      requires Agrees() && ReadResult(r, data, IO_BUFFER_SIZE - |mPast.appToTerm.buf|)
      modifies this`mAppToTermOffset, this`mInterest, this`mPast, mAppToTerm
      ensures Agrees() && mPast == old(mPast).(appToTerm := old(mPast).appToTerm.Fill(Got(r, data)))
      ensures mAppToTerm[..mAppToTermOffset] == old(mAppToTerm[..mAppToTermOffset]) + (if r > 0 then data else [])
    {
      if r > 0 {
        Store(mAppToTerm, mAppToTermOffset, data);
        mAppToTermOffset := mAppToTermOffset + r;
        if mAppToTermOffset != 0 {
          mInterest := mInterest[STDOUT_FILENO := Mode(false, true)];
        }
      }
      mPast := mPast.(appToTerm := mPast.appToTerm.Fill(Got(r, data)));
    }

    method WritePTY(w: int)
      requires Agrees() && -1 <= w <= |mPast.termToApp.buf|
      modifies this`mTermToAppOffset, this`mInterest, this`mPast, mTermToApp
      ensures Agrees() && mPast == old(mPast).(termToApp := old(mPast).termToApp.Drain(Put(w)))
    {
      if w > 0 {
        MoveDown(mTermToApp, mTermToAppOffset, w);
        mTermToAppOffset := mTermToAppOffset - w;
        if mTermToAppOffset == 0 {
          mInterest := mInterest[mTerminals[mTerminalNum] := Mode(true, false)];
        }
      }
      mPast := mPast.(termToApp := mPast.termToApp.Drain(Put(w)));
    }

    method OnPTYEvent(events: Events, r: int, data: seq<Byte>, w: int)
      requires Valid() && Possible(mPast, OnPTY(events, r, data, w))
      modifies this, mAppToTerm, mTermToApp
      ensures Valid() && mPast == Step(old(mPast), OnPTY(events, r, data, w))
    {
      hide Inv;
      StepKeeps(mPast, mStart, OnPTY(events, r, data, w));
      if events.input {
        ReadPTY(r, data);
      }
      if events.output && mTermToAppOffset != 0 {
        WritePTY(w);
      }
      CheckForErrors(events);
    }

    method WriteScreen(w: int)
      requires Agrees() && -1 <= w <= |mPast.appToTerm.buf|
      modifies this`mAppToTermOffset, this`mInterest, this`mPast, mAppToTerm
      ensures Agrees() && mPast == old(mPast).(appToTerm := old(mPast).appToTerm.Drain(Put(w)))
    {
      if w > 0 {
        MoveDown(mAppToTerm, mAppToTermOffset, w);
        mAppToTermOffset := mAppToTermOffset - w;
        if mAppToTermOffset == 0 {
          mInterest := mInterest[STDOUT_FILENO := Mode(false, false)];
        }
      }
      mPast := mPast.(appToTerm := mPast.appToTerm.Drain(Put(w)));
    }

    method OnStdOutputEvent(events: Events, w: int)
      requires Valid() && Possible(mPast, OnStdOutput(events, w))
      modifies this, mAppToTerm
      ensures Valid() && mPast == Step(old(mPast), OnStdOutput(events, w))
    {
      hide Inv;
      StepKeeps(mPast, mStart, OnStdOutput(events, w));
      if events.output && mAppToTermOffset != 0 {
        WriteScreen(w);
      }
      CheckForErrors(events);
    }

    /** removeFD of the shown PTY, the next or previous one, addFD of it. */
    method ConsoleChange(step: int)
      requires 0 <= mTerminalNum < |mTerminals| < MAX_TERMINALS && -1 <= step <= 1
      requires mTerminals[mTerminalNum] != STDIN_FILENO && mTerminals[mTerminalNum] != STDOUT_FILENO
      requires Watches()
      modifies this`mTerminalNum, this`mInterest
      ensures mTerminalNum == Turn(old(mTerminalNum), |mTerminals|, step) && 0 <= mTerminalNum < |mTerminals|
      ensures Watches()
    {
      var was := mTerminals[mTerminalNum];
      mInterest := mInterest - {was};
      mTerminalNum := mTerminalNum + step;
      mTerminalNum := (mTerminalNum + |mTerminals|) % 0x1_0000_0000 % |mTerminals|;
      mInterest := mInterest[mTerminals[mTerminalNum] := Mode(true, mTermToAppOffset != 0)];
    }

    method HandleSpecialKey(key: Byte) returns (special: bool)
      requires Agrees()
      modifies this`mTerminalNum, this`mInterest, this`mServiceMode, this`mQuitReason, this`mPast
      ensures Agrees() && (mPast, special) == HandleSpecial(old(mPast), key)
    {
      hide Turn;
      ghost var was := mPast;
      special := true;
      if mServiceMode {
        mServiceMode := false;
        if key == KEY_Q {
          mQuitReason := User;
        } else if key == KEY_N {
          ConsoleChange(1);
        } else if key == KEY_P {
          ConsoleChange(-1);
        }
      } else if key == KEY_QUIT {
        mQuitReason := User;
      } else if key == KEY_SERVICE {
        mServiceMode := true;
      } else {
        special := false;
      }
      mPast := HandleSpecial(was, key).0;
    }

    /** What was read stays in the buffer and will be written. */
    method KeepKeys(r: int, data: seq<Byte>)
      requires Agrees() && 0 < r == |data| <= IO_BUFFER_SIZE - |mPast.termToApp.buf|
      requires mTermToApp[..mTermToAppOffset + r] == mPast.termToApp.buf + data
      modifies this`mTermToAppOffset, this`mInterest, this`mPast
      ensures Agrees() && mPast == old(mPast).(termToApp := old(mPast).termToApp.Fill(data))
    {
      mTermToAppOffset := mTermToAppOffset + r;
      if mTermToAppOffset != 0 {
        mInterest := mInterest[mTerminals[mTerminalNum] := Mode(true, true)];
      }
      mPast := mPast.(termToApp := mPast.termToApp.Fill(data));
    }

    method OnStdInputEvent(events: Events, r: int, data: seq<Byte>)
      requires Valid() && Possible(mPast, OnStdInput(events, r, data))
      modifies this, mTermToApp
      ensures Valid() && mPast == Step(old(mPast), OnStdInput(events, r, data))
    {
      hide Inv, Turn;
      StepKeeps(mPast, mStart, OnStdInput(events, r, data));
      if events.input && r > 0 {
        Store(mTermToApp, mTermToAppOffset, data);
        mPast := mPast.(typed := mPast.typed + [data]);
        if r == 1 {
          var special := HandleSpecialKey(mTermToApp[mTermToAppOffset]);
          if special {
            return;
          }
        }
        KeepKeys(r, data);
      }
      CheckForErrors(events);
    }
  }
}
