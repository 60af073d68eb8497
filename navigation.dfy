/** The `App` state, `update` (one poll of the keyboard and its effect), the
    state `run` starts from, and `run`'s loop of update, draw and quit check.

    The keyboard, the clock and the scores service are inputs: each pass of the
    loop is a `Tick` holding what the 250 ms poll returned, the clock readings of
    `update` and of `ui`, and how the service answers requests at that moment. */
module Navigation {

  import opened Optional
  import opened Calendar
  import opened Records
  import opened Fetcher
  import opened View

  datatype KeyEventKind = Press | Release | Repeat

  /** A key: a character, or one of the other keys (Enter, Esc, arrows, F1, ...). */
  datatype KeyCode = Char(c: char) | NonChar(name: string)

  datatype KeyEvent = KeyEvent(code: KeyCode, kind: KeyEventKind)

  /** A terminal event: a key, or something else (mouse, resize, focus, paste). */
  datatype Event = Key(key: KeyEvent) | NonKey

  /** What `event::poll` for 250 ms and then `event::read` gave: no event in
      time, an event, or an error from either call. */
  datatype Input = Timeout | Received(event: Event) | InputError

  datatype AppState = AppState(day: Instant, shouldQuit: bool, gameData: Option<GameData>)

  /** The key of a key press; every other input is ignored by `update`. */
  function Pressed(input: Input): (r: Option<KeyCode>)
    ensures r.Some? <==> input.Received? && input.event.Key? && input.event.key.kind == Press
    ensures r.Some? ==> r.value == input.event.key.code
  {
    match input
    case Received(Key(KeyEvent(code, Press))) => Some(code)
    case _ => None
  }

  /** The selected instant after a press of `code`; `now` is what the clock reads
      if the key is `t`. */
  function Navigate(day: Instant, code: KeyCode, now: Instant): (r: Instant)
    ensures code == Char('t') ==> r == now
    ensures code != Char('t') ==> r == day + DayStep(code) * SecondsPerDay
  {
    if code == Char('h') then day + 7 * SecondsPerDay
    else if code == Char('j') then day + SecondsPerDay
    else if code == Char('k') then day - SecondsPerDay
    else if code == Char('l') then day - 7 * SecondsPerDay
    else if code == Char('t') then now
    else day
  }

  /** The new state after `update` has handled `input`: a key press moves the
      selected instant, `q` sets the quit flag, and every key press replaces the
      data by the service's answer for the new instant. */
  function Next(s: AppState, input: Input, now: Instant, fetch: Fetch): (r: AppState)
    ensures Pressed(input).None? ==> r == s
    ensures Pressed(input).Some? ==> r.gameData == fetch(RequestFor(r.day))
    ensures r.shouldQuit <==> s.shouldQuit || IsPressOf(input, 'q')
  {
    match Pressed(input)
    case None => s
    case Some(code) =>
      var day := Navigate(s.day, code, now);
      var quit := if code == Char('q') then true else s.shouldQuit;
      AppState(day, quit, GetNbaData(fetch, day))
  }

  /** The state `run` builds: the selected instant is the first clock reading,
      the data is the response for one day before the second clock reading. */
  function Initial(now: Instant, fetchNow: Instant, fetch: Fetch): AppState {
    AppState(now, false, GetNbaData(fetch, fetchNow - SecondsPerDay))
  }

  class App {
    var day: Instant
    var shouldQuit: bool
    var gameData: Option<GameData>

    function State(): AppState
      reads this
    {
      AppState(day, shouldQuit, gameData)
    }

    constructor (now: Instant, fetchNow: Instant, fetch: Fetch)
      ensures State() == Initial(now, fetchNow, fetch)
    {
      day := now;
      shouldQuit := false;
      gameData := GetNbaData(fetch, fetchNow - SecondsPerDay);
    }

    /** `update`: `ok` is false when polling or reading the terminal failed. */
    method Update(input: Input, now: Instant, fetch: Fetch) returns (ok: bool)
      modifies this
      ensures ok <==> !input.InputError?
      ensures State() == Next(old(State()), input, now, fetch)
    {
      if input.Received? && input.event.Key? && input.event.key.kind == Press {
        var code := input.event.key.code;
        assert Pressed(input) == Some(code);
        if code == Char('h') {
          day := day + 7 * SecondsPerDay;
        } else if code == Char('j') {
          day := day + SecondsPerDay;
        } else if code == Char('k') {
          day := day - SecondsPerDay;
        } else if code == Char('l') {
          day := day - 7 * SecondsPerDay;
        } else if code == Char('t') {
          day := now;
        } else if code == Char('q') {
          shouldQuit := true;
        }
        assert day == Navigate(old(day), code, now);
        gameData := GetNbaData(fetch, day);
      } else {
        assert Pressed(input) == None;
      }
      ok := !input.InputError?;
    }
  }

  // ---------------------------------------------------------------------------
  // The loop of `run`

  /** One pass of the loop: the input, the clock as `update` reads it, the
      service's answers during that pass, and the clock as `ui` reads it. */
  datatype Tick = Tick(input: Input, keyNow: Instant, fetch: Fetch, drawNow: Instant)

  /** How `run` left its loop: `q` was pressed, the terminal failed, or (in this
      model only) the recorded ticks ran out. */
  datatype Exit = Quit | Failed | OutOfTicks

  /** The states `run` draws from state `s` on (one per pass that got that far,
      drawn at that pass's `drawNow`), and how it stops. */
  function Session(s: AppState, ticks: seq<Tick>): (r: (seq<AppState>, Exit))
    ensures |r.0| <= |ticks|
    ensures forall i :: 0 <= i < |r.0| ==> !ticks[i].input.InputError?
    ensures r.1 == OutOfTicks ==> |r.0| == |ticks|
    ensures r.1 == Failed ==> |r.0| < |ticks| && ticks[|r.0|].input.InputError?
    decreases |ticks|
  {
    if ticks == [] then ([], OutOfTicks)
    else if ticks[0].input.InputError? then ([], Failed)
    else
      var s' := Next(s, ticks[0].input, ticks[0].keyNow, ticks[0].fetch);
      if s'.shouldQuit then ([s'], Quit)
      else
        var (drawn, exit) := Session(s', ticks[1..]);
        ([s'] + drawn, exit)
  }

  /** The outcome of the rest of a session, with the states already drawn put in front. */
  function Prepend(drawn: seq<AppState>, rest: (seq<AppState>, Exit)): (seq<AppState>, Exit) {
    (drawn + rest.0, rest.1)
  }

  lemma PrependTwice(drawn: seq<AppState>, more: seq<AppState>, r: (seq<AppState>, Exit))
    ensures Prepend(drawn, Prepend(more, r)) == Prepend(drawn + more, r)
  {
    assert drawn + (more + r.0) == (drawn + more) + r.0;
  }

  /** The frame `ui` draws for state `s` at clock reading `now`. */
  function Frame(s: AppState, now: Instant): (r: Option<Panel>)
    ensures r.None? <==> s.gameData.None?
    ensures r.Some? ==> (r.value.body == "" <==> now < s.day)
  {
    Ui(s.day, s.gameData, now)
  }

  /** What `draw` gives for each of a run of states, at the clock reading of its pass. */
  function Draws<T>(draw: (AppState, Instant) -> T, drawn: seq<AppState>, ticks: seq<Tick>): (r: seq<T>)
    requires |drawn| <= |ticks|
    ensures |r| == |drawn|
    decreases |drawn|
  {
    if drawn == [] then []
    else Draws(draw, drawn[..|drawn| - 1], ticks) + [draw(drawn[|drawn| - 1], ticks[|drawn| - 1].drawNow)]
  }

  lemma {:induction false} DrawsAt<T>(draw: (AppState, Instant) -> T, drawn: seq<AppState>, ticks: seq<Tick>, i: nat)
    requires i < |drawn| <= |ticks|
    ensures Draws(draw, drawn, ticks)[i] == draw(drawn[i], ticks[i].drawNow)
    decreases |drawn|
  {
    var n := |drawn| - 1;
    if i < n {
      DrawsAt(draw, drawn[..n], ticks, i);
      assert drawn[..n][i] == drawn[i];
    }
  }

  lemma DrawsSnoc<T>(draw: (AppState, Instant) -> T, drawn: seq<AppState>, ticks: seq<Tick>, s: AppState)
    requires |drawn| < |ticks|
    ensures Draws(draw, drawn + [s], ticks) == Draws(draw, drawn, ticks) + [draw(s, ticks[|drawn|].drawNow)]
  {
    assert (drawn + [s])[..|drawn|] == drawn;
  }

  /** Frame `i` is the one `ui` draws for state `i` at the clock reading of pass `i`. */
  lemma FrameAt(drawn: seq<AppState>, ticks: seq<Tick>, i: nat)
    requires i < |drawn| <= |ticks|
    ensures Draws(Frame, drawn, ticks)[i] == Frame(drawn[i], ticks[i].drawNow)
  {
    DrawsAt(Frame, drawn, ticks, i);
  }

  /** `run` after terminal setup: build the state, then update, draw and check
      the quit flag until it is set or an update fails. */
  method Run(now: Instant, fetchNow: Instant, fetch: Fetch, ticks: seq<Tick>)
    returns (frames: seq<Option<Panel>>, exit: Exit)
    ensures var (drawn, e) := Session(Initial(now, fetchNow, fetch), ticks);
      exit == e && |drawn| <= |ticks| && frames == Draws(Frame, drawn, ticks)
  {
    var app := new App(now, fetchNow, fetch);
    frames := [];
    ghost var drawn: seq<AppState> := [];
    var i := 0;
    assert ticks[i..] == ticks;
    assert [] + Session(app.State(), ticks).0 == Session(app.State(), ticks).0;
    while i < |ticks|
      invariant 0 <= i <= |ticks| && |drawn| == i
      invariant frames == Draws(Frame, drawn, ticks)
      invariant Session(Initial(now, fetchNow, fetch), ticks) == Prepend(drawn, Session(app.State(), ticks[i..]))
      decreases |ticks| - i
    {
      var tick := ticks[i];
      ghost var before := app.State();
      var ok := app.Update(tick.input, tick.keyNow, tick.fetch);
      if !ok {
        exit := Failed;
        assert Session(before, ticks[i..]) == ([], Failed);
        assert drawn + [] == drawn;
        return;
      }
      var frame := Frame(app.State(), tick.drawNow);
      assert ticks[i..][1..] == ticks[i + 1..];
      DrawsSnoc(Frame, drawn, ticks, app.State());
      if app.shouldQuit {
        assert Session(before, ticks[i..]) == ([app.State()], Quit);
        frames := frames + [frame];
        drawn := drawn + [app.State()];
        exit := Quit;
        return;
      }
      assert Session(before, ticks[i..]) == Prepend([app.State()], Session(app.State(), ticks[i + 1..]));
      PrependTwice(drawn, [app.State()], Session(app.State(), ticks[i + 1..]));
      frames := frames + [frame];
      drawn := drawn + [app.State()];
      i := i + 1;
    }
    exit := OutOfTicks;
    assert ticks[i..] == [];
    assert Session(app.State(), []) == ([], OutOfTicks);
    assert drawn + [] == drawn;
  }

  // ---------------------------------------------------------------------------
  // What key presses do

  /** The key table: `h` moves a week forward, `j` a day forward, `k` a day
      back, `l` a week back; no other key moves the date by a fixed amount. */
  function DayStep(code: KeyCode): int {
    match code
    case Char(c) =>
      if c == 'h' then 7 else if c == 'j' then 1 else if c == 'k' then -1 else if c == 'l' then -7 else 0
    case NonChar(_) => 0
  }

  predicate IsPressOf(input: Input, c: char) {
    Pressed(input) == Some(Char(c))
  }

  /** Every key but `t` moves the selected instant by its number of whole days
      and leaves the quit flag alone unless it is `q`, which sets it. */
  lemma PressedKey(s: AppState, input: Input, now: Instant, fetch: Fetch)
    requires Pressed(input).Some? && !IsPressOf(input, 't')
    ensures Next(s, input, now, fetch).day == s.day + DayStep(Pressed(input).value) * SecondsPerDay
    ensures Next(s, input, now, fetch).shouldQuit == (s.shouldQuit || IsPressOf(input, 'q'))
  {
  }

  /** `t` selects the current instant, whatever was selected before. */
  lemma PressedToday(s: AppState, input: Input, now: Instant, fetch: Fetch)
    requires IsPressOf(input, 't')
    ensures Next(s, input, now, fetch).day == now
    ensures Next(s, input, now, fetch).shouldQuit == s.shouldQuit
  {
  }

  /** A timeout, an event that is not a key, a key release or repeat, and a
      failed poll change nothing, not even the data. */
  lemma Ignored(s: AppState, input: Input, now: Instant, fetch: Fetch)
    requires Pressed(input).None?
    ensures Next(s, input, now, fetch) == s
  {
  }

  /** Every key press, `q` and unknown keys included, replaces the data with the
      service's answer to a request for the date of the new instant, even when
      that answer is `None`. */
  lemma PressRefetches(s: AppState, input: Input, now: Instant, fetch: Fetch)
    requires Pressed(input).Some?
    ensures var s' := Next(s, input, now, fetch);
      s'.gameData == fetch(RequestFor(s'.day)) && RequestedDate(Url(RequestFor(s'.day))) == Some(DateOf(s'.day))
  {
    RequestNamesDate(Next(s, input, now, fetch).day);
  }

  /** `h` undoes `l`, `l` undoes `h`, `j` undoes `k` and `k` undoes `j`. */
  lemma OppositeKeys(s: AppState, first: Input, second: Input, now1: Instant, now2: Instant, f1: Fetch, f2: Fetch)
    requires Pressed(first).Some? && Pressed(second).Some?
    requires DayStep(Pressed(first).value) != 0
    requires DayStep(Pressed(first).value) + DayStep(Pressed(second).value) == 0
    ensures Next(Next(s, first, now1, f1), second, now2, f2).day == s.day
    ensures Next(Next(s, first, now1, f1), second, now2, f2).shouldQuit == s.shouldQuit
  {
    var s1 := Next(s, first, now1, f1);
    var d1, d2 := DayStep(Pressed(first).value), DayStep(Pressed(second).value);
    PressedKey(s, first, now1, f1);
    PressedKey(s1, second, now2, f2);
    assert d1 * SecondsPerDay + d2 * SecondsPerDay == (d1 + d2) * SecondsPerDay;
    assert DayStep(Char('q')) == 0;
    assert !IsPressOf(first, 'q') && !IsPressOf(second, 'q');
  }

  // ---------------------------------------------------------------------------
  // Sequences of passes

  /** The state after `update` has handled every tick in turn. */
  function Replay(s: AppState, ticks: seq<Tick>): AppState
    decreases |ticks|
  {
    if ticks == [] then s
    else Replay(Next(s, ticks[0].input, ticks[0].keyNow, ticks[0].fetch), ticks[1..])
  }

  /** The days the date-moving keys among the ticks add up to. */
  function NetDays(ticks: seq<Tick>): int
    decreases |ticks|
  {
    if ticks == [] then 0
    else
      match Pressed(ticks[0].input)
      case None => NetDays(ticks[1..])
      case Some(code) => DayStep(code) + NetDays(ticks[1..])
  }

  lemma {:induction false} ReplayAppend(s: AppState, a: seq<Tick>, b: seq<Tick>)
    ensures Replay(s, a + b) == Replay(Replay(s, a), b)
    decreases |a|
  {
    if a != [] {
      assert (a + b)[1..] == a[1..] + b;
      ReplayAppend(Next(s, a[0].input, a[0].keyNow, a[0].fetch), a[1..], b);
    } else {
      assert a + b == b;
    }
  }

  /** Without `t`, any sequence of inputs moves the date by exactly the sum of
      the keys' day steps. */
  lemma {:induction false} DaysWalked(s: AppState, ticks: seq<Tick>)
    requires forall i :: 0 <= i < |ticks| ==> !IsPressOf(ticks[i].input, 't')
    ensures Replay(s, ticks).day == s.day + NetDays(ticks) * SecondsPerDay
    decreases |ticks|
  {
    if ticks != [] {
      var t := ticks[0];
      var s' := Next(s, t.input, t.keyNow, t.fetch);
      if Pressed(t.input).Some? {
        PressedKey(s, t.input, t.keyNow, t.fetch);
      }
      DaysWalked(s', ticks[1..]);
    }
  }

  /** After the last `t`, the date is the instant that `t` read, moved by the
      day steps of the keys pressed since. */
  lemma DaysSinceToday(s: AppState, ticks: seq<Tick>, k: nat)
    requires k < |ticks| && IsPressOf(ticks[k].input, 't')
    requires forall i :: k < i < |ticks| ==> !IsPressOf(ticks[i].input, 't')
    ensures Replay(s, ticks).day == ticks[k].keyNow + NetDays(ticks[k + 1..]) * SecondsPerDay
  {
    assert ticks == ticks[..k + 1] + ticks[k + 1..];
    ReplayAppend(s, ticks[..k + 1], ticks[k + 1..]);
    assert ticks[..k + 1] == ticks[..k] + [ticks[k]];
    ReplayAppend(s, ticks[..k], [ticks[k]]);
    DaysWalked(Replay(s, ticks[..k + 1]), ticks[k + 1..]);
  }

  /** The quit flag is set exactly when it was set before or `q` was pressed:
      nothing clears it. */
  lemma {:induction false} QuitFlag(s: AppState, ticks: seq<Tick>)
    ensures Replay(s, ticks).shouldQuit
      <==> s.shouldQuit || exists i :: 0 <= i < |ticks| && IsPressOf(ticks[i].input, 'q')
    decreases |ticks|
  {
    if ticks != [] {
      var t := ticks[0];
      var s' := Next(s, t.input, t.keyNow, t.fetch);
      assert s'.shouldQuit == (s.shouldQuit || IsPressOf(t.input, 'q'));
      QuitFlag(s', ticks[1..]);
      if exists i :: 0 <= i < |ticks| && IsPressOf(ticks[i].input, 'q') {
        var i :| 0 <= i < |ticks| && IsPressOf(ticks[i].input, 'q');
        if i > 0 {
          assert IsPressOf(ticks[1..][i - 1].input, 'q');
        }
      }
      if exists i :: 0 <= i < |ticks| - 1 && IsPressOf(ticks[1..][i].input, 'q') {
        var i :| 0 <= i < |ticks| - 1 && IsPressOf(ticks[1..][i].input, 'q');
        assert IsPressOf(ticks[i + 1].input, 'q');
      }
    }
  }

  /** The state `run` starts from: nothing to quit, the first clock reading
      selected, and the data answering a request for the date one day before the
      second clock reading. */
  lemma InitialState(now: Instant, fetchNow: Instant, fetch: Fetch)
    ensures var s := Initial(now, fetchNow, fetch);
      !s.shouldQuit && s.day == now
      && s.gameData == fetch(RequestFor(fetchNow - SecondsPerDay))
      && RequestedDate(Url(RequestFor(fetchNow - SecondsPerDay))).Some?
      && DaysFromCivil(RequestedDate(Url(RequestFor(fetchNow - SecondsPerDay))).value) == DaysFromCivil(DateOf(fetchNow)) - 1
  {
    RequestNamesDate(fetchNow - SecondsPerDay);
    DateAfterDays(fetchNow, -1);
  }

  /** The state drawn at pass `i` of a session is the state after the first
      `i + 1` updates; a session draws at most once per tick, and once per tick
      exactly when it runs out of ticks; it fails at a tick whose poll failed,
      and quits on a state whose flag is set. */
  lemma {:induction false} SessionStates(s: AppState, ticks: seq<Tick>)
    ensures var (drawn, exit) := Session(s, ticks);
      |drawn| <= |ticks|
      && (forall i :: 0 <= i < |drawn| ==> drawn[i] == Replay(s, ticks[..i + 1]))
      && (forall i :: 0 <= i < |drawn| ==> !ticks[i].input.InputError?)
      && (exit == OutOfTicks ==> |drawn| == |ticks|)
      && (exit == Failed ==> |drawn| < |ticks| && ticks[|drawn|].input.InputError?)
      && (exit == Quit ==> 1 <= |drawn| && drawn[|drawn| - 1].shouldQuit)
    decreases |ticks|
  {
    if ticks != [] && !ticks[0].input.InputError? {
      var t := ticks[0];
      var s' := Next(s, t.input, t.keyNow, t.fetch);
      assert Replay(s, ticks[..1]) == s' by {
        assert ticks[..1][1..] == [];
      }
      if !s'.shouldQuit {
        SessionStates(s', ticks[1..]);
        var (rest, exit) := Session(s', ticks[1..]);
        assert Session(s, ticks) == ([s'] + rest, exit);
        forall i | 1 <= i < |rest| + 1
          ensures Replay(s, ticks[..i + 1]) == Replay(s', ticks[1..][..i])
        {
          assert ticks[..i + 1][1..] == ticks[1..][..i];
        }
      }
    }
  }

  /** The first failed poll ends the session before anything is drawn for it,
      when no `q` was pressed before it. */
  lemma {:induction false} FailEndsSession(s: AppState, ticks: seq<Tick>, k: nat)
    requires !s.shouldQuit
    requires k < |ticks| && ticks[k].input.InputError?
    requires forall j :: 0 <= j < k ==> !ticks[j].input.InputError? && !IsPressOf(ticks[j].input, 'q')
    ensures Session(s, ticks).1 == Failed
    ensures |Session(s, ticks).0| == k
    decreases k
  {
    if k > 0 {
      var t := ticks[0];
      var s' := Next(s, t.input, t.keyNow, t.fetch);
      assert !s'.shouldQuit;
      FailEndsSession(s', ticks[1..], k - 1);
    }
  }

  /** The first `q` press ends the session right after drawing its frame, when
      no poll failed before it; later ticks make no difference. */
  lemma {:induction false} QuitEndsSession(s: AppState, ticks: seq<Tick>, k: nat)
    requires !s.shouldQuit
    requires k < |ticks| && IsPressOf(ticks[k].input, 'q')
    requires forall j :: 0 <= j < k ==> !ticks[j].input.InputError? && !IsPressOf(ticks[j].input, 'q')
    ensures Session(s, ticks).1 == Quit
    ensures |Session(s, ticks).0| == k + 1
    decreases k
  {
    var t := ticks[0];
    var s' := Next(s, t.input, t.keyNow, t.fetch);
    if k > 0 {
      assert !s'.shouldQuit;
      QuitEndsSession(s', ticks[1..], k - 1);
    }
  }

}
