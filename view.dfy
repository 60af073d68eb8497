/** `ui` and `gen_navigation_paragraph`: the text drawn for the current state.
    ratatui's `render_widget` of a bordered `Paragraph` is reduced to the panel's
    title and body; a call that renders nothing gives `None`. */
module View {

  import opened Optional
  import opened Calendar
  import opened Records

  datatype Panel = Panel(title: string, body: string)

  /** `gen_navigation_paragraph()`: a blank line, then the key legend. */
  const NavigationParagraph: string := "\nNavigation:\none day: j|k\none week: h|l\ntoday: t\nquit: q"

  const ResultsTitle: string := "NBA Game results of: "

  const FutureSuffix: string := " is in the future."

  /** `ui(app, f)` for an app whose selected instant is `day` and whose last fetch
      gave `gameData`, drawn when the clock reads `now`. */
  function Ui(day: Instant, gameData: Option<GameData>, now: Instant): (frame: Option<Panel>)
    ensures frame.None? <==> gameData.None?
    ensures frame.Some? ==> (frame.value.body == "" <==> now < day)
  {
    match gameData
    case None => None
    case Some(data) =>
      var date := FormatInstant(day);
      var text := GameLines(data.data) + NavigationParagraph;
      if day <= now then Some(Panel(ResultsTitle + date, text))
      else Some(Panel(date + FutureSuffix, ""))
  }

  // ---------------------------------------------------------------------------
  // Reading a panel back

  /** The date and games a results panel shows: its title is the results heading
      and a date, its body the game lines followed by the legend. */
  function ReadResults(p: Panel): Option<(Date, seq<LineFields>)> {
    var t, b := p.title, p.body;
    if |t| < |ResultsTitle| || t[..|ResultsTitle|] != ResultsTitle then None
    else if |b| < |NavigationParagraph| || b[|b| - |NavigationParagraph|..] != NavigationParagraph then None
    else
      match (ParseDate(t[|ResultsTitle|..]), ParseGameLines(b[..|b| - |NavigationParagraph|]))
      case (Some(d), Some(lines)) => Some((d, lines))
      case _ => None
  }

  /** The date a future panel names: its title is a date and the future remark,
      its body is empty. */
  function ReadFuture(p: Panel): Option<Date> {
    var t := p.title;
    if p.body != "" || |t| < |FutureSuffix| || t[|t| - |FutureSuffix|..] != FutureSuffix then None
    else ParseDate(t[..|t| - |FutureSuffix|])
  }

  lemma ReadResultsOf(date: string, lines: string)
    ensures ReadResults(Panel(ResultsTitle + date, lines + NavigationParagraph))
      == match (ParseDate(date), ParseGameLines(lines))
         case (Some(d), Some(ls)) => Some((d, ls))
         case _ => None
  {
    var t := ResultsTitle + date;
    var b := lines + NavigationParagraph;
    assert t[..|ResultsTitle|] == ResultsTitle && t[|ResultsTitle|..] == date;
    assert b[|b| - |NavigationParagraph|..] == NavigationParagraph;
    assert b[..|b| - |NavigationParagraph|] == lines;
  }

  lemma ReadFutureOf(date: string)
    ensures ReadFuture(Panel(date + FutureSuffix, "")) == ParseDate(date)
  {
    var t := date + FutureSuffix;
    assert t[|t| - |FutureSuffix|..] == FutureSuffix;
    assert t[..|t| - |FutureSuffix|] == date;
  }

  /** Up to now, the panel names the selected date and lists every game of the
      last response in the service's order, then the legend. */
  lemma UiShowsResults(day: Instant, data: GameData, now: Instant)
    requires day <= now
    requires forall i :: 0 <= i < |data.data| ==> Listable(data.data[i])
    ensures Ui(day, Some(data), now).Some?
    ensures ReadResults(Ui(day, Some(data), now).value) == Some((DateOf(day), FieldsOf(data.data)))
  {
    ReadResultsOf(FormatInstant(day), GameLines(data.data));
    FormatInstantRoundTrip(day);
    GameLinesRoundTrip(data.data);
  }

  /** After now, the panel names the selected date as being in the future, shows
      no games whatever was fetched, and is the same for every response. */
  lemma UiShowsFuture(day: Instant, data: GameData, other: GameData, now: Instant)
    requires now < day
    ensures Ui(day, Some(data), now) == Ui(day, Some(other), now)
    ensures Ui(day, Some(data), now).Some?
    ensures ReadFuture(Ui(day, Some(data), now).value) == Some(DateOf(day))
  {
    ReadFutureOf(FormatInstant(day));
    FormatInstantRoundTrip(day);
  }

  /** Without a response nothing is drawn. */
  lemma UiWithoutData(day: Instant, now: Instant)
    ensures Ui(day, None, now) == None
  {
  }

  /** A day without games shows the legend alone. */
  lemma UiNoGames(day: Instant, meta: Meta, now: Instant)
    requires day <= now
    ensures Ui(day, Some(GameData([], meta)), now) == Some(Panel(ResultsTitle + FormatInstant(day), NavigationParagraph))
  {
    var games: seq<Game> := [];
    assert GameLines(games) == [];
    assert [] + NavigationParagraph == NavigationParagraph;
  }

  /** A day of 2023-01-15 with one game, LAL 101 at home to BOS 99: the panel
      is titled with that date and lists that one line above the legend. */
  lemma OneGameScenario(day: Instant, now: Instant, meta: Meta, g: Game)
    requires 19372 * SecondsPerDay <= day < 19373 * SecondsPerDay && day <= now
    requires g.homeTeam.abbreviation == "LAL" && g.homeTeamScore == 101
    requires g.visitorTeam.abbreviation == "BOS" && g.visitorTeamScore == 99
    ensures Ui(day, Some(GameData([g], meta)), now)
      == Some(Panel("NBA Game results of: 2023-01-15", "LAL 101:99 BOS\n" + NavigationParagraph))
  {
    ScenarioDate(day);
    ScenarioLine(g);
    var date := FormatInstant(day);
    var lines := GameLines([g]);
    assert Ui(day, Some(GameData([g], meta)), now) == Some(Panel(ResultsTitle + date, lines + NavigationParagraph));
    ScenarioTitle();
  }

  /** The results title of that day, spelt out; kept apart because the solver
      handles the literal concatenation cheaply only on its own. */
  lemma ScenarioTitle()
    ensures ResultsTitle + "2023-01-15" == "NBA Game results of: 2023-01-15"
  {
  }

  lemma ScenarioDate(day: Instant)
    requires 19372 * SecondsPerDay <= day < 19373 * SecondsPerDay
    ensures FormatInstant(day) == "2023-01-15"
  {
    ScenarioDay(day);
    ScenarioText();
  }

  lemma ScenarioDay(day: Instant)
    requires 19372 * SecondsPerDay <= day < 19373 * SecondsPerDay
    ensures DateOf(day) == Date(2023, 1, 15)
  {
    var date := Date(2023, 1, 15);
    assert DaysFromCivil(date) == 19372;
    CivilRoundTrip(date);
  }

  lemma ScenarioText()
    ensures FormatDate(Date(2023, 1, 15)) == "2023-01-15"
  {
    assert FormatYear(2023) == "2023";
  }

  lemma ScenarioLine(g: Game)
    requires g.homeTeam.abbreviation == "LAL" && g.homeTeamScore == 101
    requires g.visitorTeam.abbreviation == "BOS" && g.visitorTeamScore == 99
    ensures GameLines([g]) == "LAL 101:99 BOS\n"
  {
    assert g.DisplayLine() == "LAL 101:99 BOS\n";
    assert DisplayLines([g]) == [g.DisplayLine()];
    assert Concat([g.DisplayLine()]) == g.DisplayLine() + Concat([]);
  }

}
