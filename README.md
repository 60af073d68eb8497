# rust_sports_cli in Dafny

rust_sports_cli is a terminal viewer for NBA results. It keeps a selected
instant (`day`), a quit flag and the last response of the balldontlie games
service. A loop waits up to 250 ms for a terminal event and handles a key press:
`h` and `l` move a week forward and back, `j` and `k` a day, `t` returns to
the current instant and `q` quits. After every press it fetches the games of
the selected date. It then draws a bordered panel. Up to now, the panel lists
one line per game (`LAL 101:99 BOS`) under the title
`NBA Game results of: YYYY-MM-DD`. For a later date, the panel is empty and
its title says the date is in the future. The key legend closes the list.

This project models that core of `src/main.rs`:

- `navigation.dfy`: the `App` record as a class, `update` as `App.Update`,
  the state `run` starts from, and `run`'s loop of update, draw and quit
  check as `Run`. The loop is driven by a finite list of ticks. Each tick
  holds the poll outcome, both clock readings and the service's answers
  during that pass. `Next`, `Replay` and `Session` are the value-level
  specifications the class and loop are proved against.
- `view.dfy`: `ui` and `gen_navigation_paragraph`. ratatui's bordered
  paragraph becomes a `Panel` of title and body, and a call that draws
  nothing becomes `None`. `ReadResults` and `ReadFuture` read a panel back.
- `records.dfy`: the `Team`, `Game`, `Meta` and `GameData` records,
  `get_display_line`, and the joined list of lines. A reader
  (`ParseDisplayLine`, `ParseGameLines`) takes that text apart again.
- `fetcher.dfy`: the query and URL that `get_nba_data` sends. The response
  is an oracle from request to decoded data.
- `calendar.dfy`: instants as whole seconds since 1970-01-01T00:00:00Z,
  their proleptic Gregorian date in UTC, and chrono's `%Y-%m-%d` text of a
  date, with a parser for that text. This follows the calendar date of
  ISO 8601, section 4.1.2.2.
- `decimal.dfy`: decimal numerals of unsigned integers, zero padding, and
  reading numerals back.
- `optional.dfy`: the `Option` type.

What the code does, which the model follows:

- Every key press fetches: `q`, `t` and keys without a binding included.
  The fetch at `src/main.rs:93` sits after the `match`, not inside its
  date-changing arms.
- A fetch whose response body cannot be read gives `None`. That `None`
  replaces the previous data; stale data is not kept.
- Without data, `ui` renders nothing at all: no border, no title.
- Each pass updates before it draws. Until the first key press, each
  frame's title names the first clock reading's date. The data under it is
  for one day before the second clock reading, usually yesterday's games
  under today's date. If that first fetch gave `None`, nothing is drawn
  until a key press. The first key press fetches the selected date.
- `q` fetches once more before the loop ends. That pass's frame is still
  drawn.

## Model

| member | source | states |
|---|---|---|
| Navigation.Pressed | src/main.rs:81-83 | An input is a key press exactly when an event arrived, it is a key event and its kind is a press; the key is that event's key. |
| Navigation.Navigate | src/main.rs:84-92 | `t` selects the current clock reading; every other key moves the selected instant by its day step (+7, +1, −1, −7 for `h`, `j`, `k`, `l`, 0 otherwise) times one day. |
| Navigation.Next | src/main.rs:80-98 | `update` on values: an input that is no key press leaves the state unchanged; after a key press the data is the service's answer for the new instant; the quit flag is set exactly when it was set or `q` was pressed. |
| Navigation.Initial | src/main.rs:105-109 | Defines the state `run` builds: the first clock reading selected, the flag clear, the answer for one day before the second reading. `InitialState` states what that request names. |
| Navigation.App.constructor | src/main.rs:105-109 | The new app is the initial state: the first clock reading selected, the quit flag clear, and the answer for one day before the second clock reading. |
| Navigation.App.Update | src/main.rs:80-98 | The new fields are exactly `Next` of the old ones. The result is false exactly when polling or reading the terminal failed. |
| Navigation.PressedKey | src/main.rs:84-92 | Every key but `t` moves `day` by +7, +1, −1 or −7 whole days for `h`, `j`, `k`, `l`, and by 0 for any other key. The quit flag becomes set exactly when it was set or the key is `q`. |
| Navigation.PressedToday | src/main.rs:89 | `t` selects the current clock reading, whatever was selected, and leaves the quit flag alone. |
| Navigation.Ignored | src/main.rs:81-83 | A timeout, a non-key event, a key release or repeat, and a failed poll leave the whole state unchanged, data included. |
| Navigation.PressRefetches | src/main.rs:83-94 | After any key press, `q` and unbound keys included, the data is the service's answer to the request for the new instant, even when that answer is `None`. That request's URL names the new instant's date. |
| Navigation.OppositeKeys | src/main.rs:85-88 | `h` then `l`, `l` then `h`, `j` then `k`, and `k` then `j` restore `day` and the quit flag. |
| Navigation.DaysWalked | src/main.rs:84-93 | Over any sequence of passes without `t`, `day` moves by exactly the sum of the pressed keys' day steps, in seconds. |
| Navigation.DaysSinceToday | src/main.rs:84-93 | After the last `t`, `day` is the instant that `t` read plus the day steps of the keys pressed since. |
| Navigation.QuitFlag | src/main.rs:90 | After any sequence of passes, the quit flag is set exactly when it was set at the start or some pass pressed `q`; nothing clears it. |
| Navigation.InitialState | src/main.rs:105-109 | The initial state has the quit flag clear and `day` at the first clock reading. Its data is the answer to a request whose URL names the date one day before the second clock reading's date. |
| Navigation.Run | src/main.rs:100-127 | The frames drawn are those of `Session` from the initial state, each drawn at its own pass's clock reading. The exit is `Session`'s: quit, failure, or (in the model only) no more ticks. |
| Navigation.Session | src/main.rs:111-124 | The loop on values. At most one state is drawn per tick, and none at a tick whose poll failed. Running out of ticks means one state was drawn per tick. A failed exit stops at the first tick not drawn, and that tick's poll failed. |
| Navigation.SessionStates | src/main.rs:111-124 | The state drawn at pass `i` is the state after the first `i + 1` updates, and no drawn pass had a failed poll. A failed exit is at a tick whose poll failed. It quits on a drawn state whose flag is set. |
| Navigation.FailEndsSession | src/main.rs:113 | The first failed poll (with no `q` press before it) ends the loop with a failure before drawing that pass. Exactly one frame has been drawn for each earlier pass. |
| Navigation.QuitEndsSession | src/main.rs:120-122 | The first `q` press (with no failed poll before it) ends the loop right after its frame. The session then has drawn exactly one frame per pass up to and including that press. |
| Navigation.Frame | src/main.rs:115-117 | The frame drawn for a state is `ui` of its selected instant and data. It is drawn exactly when there is data, and its body is empty exactly when the selected instant is after the clock reading. |
| Navigation.FrameAt | src/main.rs:115-117 | Frame `i` of a session is what `ui` draws for state `i` at the clock reading of pass `i`. |
| View.NavigationParagraph | src/main.rs:70-77 | Defines the legend: a newline, then the lines "Navigation:", the one-day keys `j` and `k`, the one-week keys `h` and `l`, "today: t" and "quit: q", with no final newline. `UiNoGames` states that it is the whole body when there are no games. |
| View.Ui | src/main.rs:35-68 | A panel is drawn exactly when there is data. A drawn panel has an empty body exactly when the selected instant is after the current clock reading. |
| View.UiShowsResults | src/main.rs:36-56 | For games whose home abbreviation has no blank and no newline and whose visitor abbreviation has no newline, up to now: the title reads back as the selected instant's UTC date. The body reads back as the fields of every game of the response, in order, followed by the legend. |
| View.UiShowsFuture | src/main.rs:57-66 | After now, the title reads back as the selected date followed by " is in the future.". The body is empty, and the panel is the same whatever data was fetched. |
| View.UiWithoutData | src/main.rs:38 | Without data nothing is drawn. |
| View.UiNoGames | src/main.rs:35-77 | Up to now, a response without games gives a body that is exactly the legend. |
| View.OneGameScenario | src/main.rs:35-56 | On 2023-01-15 with one game, LAL 101 against BOS 99, the panel is "NBA Game results of: 2023-01-15" over "LAL 101:99 BOS\n" and the legend. |
| Records.Game.DisplayLine | src/main.rs:169-179 | A display line is at least six characters long and ends in a newline. |
| Records.DisplayLineRoundTrip | src/main.rs:169-179 | A game line reads back as the home abbreviation, home score, visitor score and visitor abbreviation. The only requirement is a home abbreviation without blanks. |
| Records.DisplayLines | src/main.rs:40-44 | The mapped list has one line per game, in the games' order, each that game's display line. |
| Records.Concat | src/main.rs:44 | Defines `join("")`: the parts one after the other. `GameLinesRoundTrip` states what the joined game lines hold. |
| Records.GameLines | src/main.rs:40-44 | Defines the game list of the body: the display lines of the games, joined. `GameLinesRoundTrip` reads it back. |
| Records.FieldsOf | src/main.rs:40-44 | The fields of the games, one per game, in the games' order. |
| Records.GameLinesRoundTrip | src/main.rs:40-44 | For games whose home abbreviation has no blank and no newline and whose visitor abbreviation has no newline, the joined text of a response's games reads back as exactly those games' fields, in order, with none lost, added or merged. |
| Fetcher.RequestFor | src/main.rs:197 | The request for an instant is for the UTC day containing it. |
| Fetcher.Query | src/main.rs:197-199 | Defines `format!("?dates[]={}", date)` for the request's date. `UrlNamesDay` reads the date back. |
| Fetcher.Url | src/main.rs:202-206 | Defines the URL sent: the games endpoint followed by the query. `UrlNamesDay` and `UrlNamesRequest` state what it names. |
| Fetcher.GetNbaData | src/main.rs:194-215 | `get_nba_data` as the service's answer to the request for an instant. The answer is the same for every instant of the same UTC day. |
| Fetcher.RequestNamesDate | src/main.rs:197-207 | The URL sent for an instant is the games endpoint with a `dates[]` parameter that reads back as the instant's UTC date. |
| Fetcher.UrlNamesDay | src/main.rs:197-207 | The URL of a request for a day number reads back as that day's date. |
| Fetcher.UrlNamesRequest | src/main.rs:197-207 | Two requests have the same URL exactly when they are the same request. |
| Fetcher.SameRequestSameDay | src/main.rs:197-207 | Two instants lead to the same URL exactly when they fall in the same UTC day. |
| Calendar.DateOf | src/main.rs:36 | The UTC calendar date of an instant is a valid date. `DateAfterDays` and `SameDate` state how it moves with the instant. |
| Calendar.FormatYear | src/main.rs:36 | `%Y`: at least four characters, starting with a minus sign exactly for years before 0. |
| Calendar.FormatDate | src/main.rs:36 | `%Y-%m-%d`: at least ten characters, with the dashes six and three characters from the end. |
| Calendar.FormatInstant | src/main.rs:36 | Defines `day.format("%Y-%m-%d")` as the text of the instant's UTC date. `FormatInstantRoundTrip` reads it back. |
| Calendar.CivilFromDays | src/main.rs:36 | The date of a day number is a valid date, and counting days from 1970-01-01 to it gives that day number back. |
| Calendar.CivilRoundTrip | src/main.rs:36 | Every valid date is the date of its own day number, so dates and day numbers correspond one to one. |
| Calendar.SplitShiftedDaysCorrect | src/main.rs:36 | Any day count splits into a year starting on 1 March and a day within that year's length, which add back up to the count. |
| Calendar.SplitShiftedDaysUnique | src/main.rs:36 | That split is the only one: a year and a day within it are what their day count splits into. |
| Calendar.ShiftedYearStep | src/main.rs:36 | Consecutive years starting on 1 March are as many days apart as the first one is long: 366 exactly when the February it ends with has 29 days, that is when year `sy + 1` is a leap year, and 365 otherwise. |
| Calendar.EraPeriod | src/main.rs:36 | The calendar repeats every 400 years, which are 146097 days. |
| Calendar.DateAfterDays | src/main.rs:85-88 | Moving an instant by `n` whole days moves its date by exactly `n` days. |
| Calendar.SameDate | src/main.rs:36 | Two instants have the same date exactly when they fall in the same UTC day. |
| Calendar.FormatYearRoundTrip | src/main.rs:36 | The `%Y` text of any year reads back as that year, including years written with a sign. |
| Calendar.FormatDateRoundTrip | src/main.rs:36 | The `%Y-%m-%d` text of a valid date reads back as that date and no other. |
| Calendar.FormatInstantRoundTrip | src/main.rs:36 | The date text of an instant reads back as its UTC date. |
| Calendar.FormatDateLength | src/main.rs:36 | For years 0 to 9999 the date text is exactly ten characters. |
| Decimal.NatToString | src/main.rs:172-177 | The numeral of an unsigned integer is all digits and never empty. It has one digit exactly below 10, and starts with 0 exactly for 0. |
| Decimal.NatToStringRoundTrip | src/main.rs:172-177 | The numeral of a score reads back as that score. |
| Decimal.PaddedNatRoundTrip | src/main.rs:36 | Zero padding keeps a numeral all digits and keeps its value. |
| Decimal.TwoDigitsRoundTrip | src/main.rs:36 | The two-digit month or day of a date reads back as its value. |

## Left out

- Terminal setup and teardown (`startup`, `shutdown`, `main`, and creating the `Terminal`): crossterm and ratatui I/O with no logic of its own. Errors from those calls are not modelled.
- The 250 ms wait of `event::poll` and the blocking `event::read`: each pass's `Input` says what they gave, `InputError` standing for either call failing.
- A key event's modifiers and state (crossterm's `modifiers` and `state` fields): not kept, since `update` looks only at the key code and the event kind.
- Mouse, resize, focus and paste events: collapsed into one `NonKey` event, since `update` ignores them all.
- ratatui's layout, borders and wrapping: a frame is reduced to its title and body text.
- A failing `t.draw` in `run`: the model's draws always succeed.
- The HTTP exchange and `parse_json`: the service's answer is an oracle per pass from request to `Option<GameData>`. serde's decoder is not visible, so no JSON format is modelled. The panics on a failed send (`expect`) and on undecodable JSON (`parse_json`) end the process and are not modelled.
- The response oracle is keyed by the request (a day number), not by the URL string. `UrlNamesRequest` proves the two keys correspond one to one.
- `Utc::now()`: every clock reading is a parameter. The two readings in `run`'s initialiser are distinct parameters, as are the readings in `update` and in `ui` on each pass.
- Sub-second precision: instants are whole seconds. The source only adds whole days and compares instants, so the date arithmetic does not depend on it.
- Navigation.Run: the loop runs over a finite list of ticks, so it can also stop with `OutOfTicks`, which the program itself never does.
- chrono's range of representable dates (about ±262000 years) and its overflow panic in `+= Duration::days(..)`: the model's instants are unbounded integers.
- Calendar.FormatYear: the signed `%Y` form for years outside 0 to 9999 follows chrono's formatting rule. That rule is not visible in `src/main.rs`.
- The `Team`, `Game`, `Meta` and `GameData` records (src/main.rs:143-192) are plain datatypes with no contract of their own. The `Team` and `Meta` records and most `Game` fields are kept as data only, because nothing in the core reads them.
- `src/old.rs`: a separate one-shot command-line client, not part of the interactive program.
