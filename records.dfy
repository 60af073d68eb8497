/** The records decoded from the scores service (`Team`, `Game`, `Meta`,
    `GameData`), the one-line summary of a game (`Game::get_display_line`), the
    joined list of those lines, and readers that take that text apart again. */
module Records {

  import opened Optional
  import opened Decimal

  /** Rust's `u32`. */
  newtype u32 = x: int | 0 <= x < 0x1_0000_0000

  datatype Team = Team(
    id: u32,
    abbreviation: string,
    city: string,
    conference: string,
    division: string,
    fullName: string,
    name: string)

  datatype Game = Game(
    id: u32,
    date: string,
    homeTeam: Team,
    homeTeamScore: u32,
    period: u32,
    postseason: bool,
    season: u32,
    status: string,
    time: Option<string>,
    visitorTeam: Team,
    visitorTeamScore: u32)
  {
    /** `get_display_line`: "<home> <home score>:<visitor score> <visitor>" and a newline. */
    function DisplayLine(): (line: string)
      ensures |line| >= 6 && line[|line| - 1] == '\n'
    {
      homeTeam.abbreviation + " " + NatToString(homeTeamScore as nat) + ":"
        + NatToString(visitorTeamScore as nat) + " " + visitorTeam.abbreviation + "\n"
    }
  }

  /** Pagination block of a response; only its first page is ever requested. */
  datatype Meta = Meta(currentPage: u32, nextPage: Option<u32>, perPage: u32)

  /** One decoded response: the games of a date, in the order the service sent them. */
  datatype GameData = GameData(data: seq<Game>, meta: Meta)

  /** The four facts a display line shows. */
  datatype LineFields = LineFields(home: string, homeScore: nat, visitorScore: nat, visitor: string)

  function Fields(g: Game): LineFields {
    LineFields(g.homeTeam.abbreviation, g.homeTeamScore as nat, g.visitorTeamScore as nat, g.visitorTeam.abbreviation)
  }

  /** The fields of every game, in the games' order. */
  function FieldsOf(games: seq<Game>): (fs: seq<LineFields>)
    ensures |fs| == |games|
    ensures forall i :: 0 <= i < |games| ==> fs[i] == Fields(games[i])
  {
    if games == [] then [] else [Fields(games[0])] + FieldsOf(games[1..])
  }

  /** A home name that keeps a display line readable: no blank and no line break in it. */
  predicate PlainText(s: string) {
    forall i :: 0 <= i < |s| ==> s[i] != ' ' && s[i] != '\n'
  }

  /** A game whose line can be read back from a list: the home name is plain
      and the visitor name, which runs to the end of the line, has no line break. */
  predicate Listable(g: Game) {
    PlainText(g.homeTeam.abbreviation) && '\n' !in g.visitorTeam.abbreviation
  }

  // ---------------------------------------------------------------------------
  // The list of games: `iter().map(get_display_line).collect::<Vec<String>>().join("")`

  function DisplayLines(games: seq<Game>): (lines: seq<string>)
    ensures |lines| == |games|
    ensures forall i :: 0 <= i < |games| ==> lines[i] == games[i].DisplayLine()
  {
    if games == [] then [] else [games[0].DisplayLine()] + DisplayLines(games[1..])
  }

  /** `join("")`: the parts one after the other. */
  function Concat(parts: seq<string>): string {
    if parts == [] then "" else parts[0] + Concat(parts[1..])
  }

  function GameLines(games: seq<Game>): string {
    Concat(DisplayLines(games))
  }

  lemma GameLinesCons(games: seq<Game>)
    requires games != []
    ensures GameLines(games) == games[0].DisplayLine() + GameLines(games[1..])
  {
    assert DisplayLines(games)[1..] == DisplayLines(games[1..]);
  }

  // ---------------------------------------------------------------------------
  // Reading the text back

  /** The first position of `c` in `s`. */
  function IndexOf(s: string, c: char): (r: Option<nat>)
    ensures r.Some? ==> r.value < |s| && s[r.value] == c && c !in s[..r.value]
    ensures r.None? ==> c !in s
  {
    if s == [] then None
    else if s[0] == c then Some(0)
    else
      match IndexOf(s[1..], c)
      case None => None
      case Some(i) => assert s[1..][..i] == s[1..i + 1]; Some(i + 1)
  }

  lemma IndexOfFirst(a: string, c: char, b: string)
    requires c !in a
    ensures IndexOf(a + [c] + b, c) == Some(|a|)
  {
    var s := a + [c] + b;
    assert s[|a|] == c;
    assert s[..|a|] == a;
    assert forall k :: 0 <= k <= |a| ==> s[..k] == a[..k];
  }

  /** Cuts `s` at the first `c`, dropping that `c`. */
  function SplitAt(s: string, c: char): Option<(string, string)> {
    match IndexOf(s, c)
    case None => None
    case Some(i) => Some((s[..i], s[i + 1..]))
  }

  lemma SplitAtFirst(a: string, c: char, b: string)
    requires c !in a
    ensures SplitAt(a + [c] + b, c) == Some((a, b))
  {
    IndexOfFirst(a, c, b);
    var s := a + [c] + b;
    assert s[..|a|] == a && s[|a| + 1..] == b;
  }

  /** Takes a display line apart: the home name runs to the first blank, the two
      scores are numerals around the colon, the visitor name runs to the final newline. */
  function ParseDisplayLine(line: string): Option<LineFields> {
    if line == [] || line[|line| - 1] != '\n' then None
    else
      match SplitAt(line[..|line| - 1], ' ')
      case None => None
      case Some((home, rest)) =>
        match SplitAt(rest, ':')
        case None => None
        case Some((homeScore, rest2)) =>
          match SplitAt(rest2, ' ')
          case None => None
          case Some((visitorScore, visitor)) =>
            match (ParseNat(homeScore), ParseNat(visitorScore))
            case (Some(hs), Some(vs)) => Some(LineFields(home, hs, vs, visitor))
            case _ => None
  }

  lemma DigitsHaveNo(s: string, c: char)
    requires AllDigits(s) && !IsDigit(c)
    ensures c !in s
  {
    assert forall k :: 0 <= k < |s| ==> s[k] != c;
  }

  /** A line of a home name without blanks, two numerals and a visitor name
      reads back as those four parts. */
  lemma ParseLineOf(h: string, hs: string, vs: string, v: string)
    requires ' ' !in h
    requires 1 <= |hs| && AllDigits(hs) && 1 <= |vs| && AllDigits(vs)
    ensures ParseDisplayLine(h + [' '] + (hs + [':'] + (vs + [' '] + v)) + ['\n'])
      == Some(LineFields(h, DigitsValue(hs), DigitsValue(vs), v))
  {
    var rest2 := vs + [' '] + v;
    var rest := hs + [':'] + rest2;
    var body := h + [' '] + rest;
    var line := body + ['\n'];
    assert line[..|line| - 1] == body;
    SplitAtFirst(h, ' ', rest);
    DigitsHaveNo(hs, ':');
    SplitAtFirst(hs, ':', rest2);
    DigitsHaveNo(vs, ' ');
    SplitAtFirst(vs, ' ', v);
  }

  /** A display line shows the home name, both scores and the visitor name,
      each of which can be read back from it. */
  lemma DisplayLineRoundTrip(g: Game)
    requires ' ' !in g.homeTeam.abbreviation
    ensures ParseDisplayLine(g.DisplayLine()) == Some(Fields(g))
  {
    var hs, vs := NatToString(g.homeTeamScore as nat), NatToString(g.visitorTeamScore as nat);
    var h, v := g.homeTeam.abbreviation, g.visitorTeam.abbreviation;
    assert g.DisplayLine() == h + [' '] + (hs + [':'] + (vs + [' '] + v)) + ['\n'];
    ParseLineOf(g.homeTeam.abbreviation, hs, vs, g.visitorTeam.abbreviation);
    NatToStringRoundTrip(g.homeTeamScore as nat);
    NatToStringRoundTrip(g.visitorTeamScore as nat);
  }

  /** Splits text into newline-terminated lines and reads each as a display line. */
  function ParseGameLines(text: string): Option<seq<LineFields>>
    decreases |text|
  {
    if text == [] then Some([])
    else
      match SplitAt(text, '\n')
      case None => None
      case Some((line, rest)) =>
        match (ParseDisplayLine(line + "\n"), ParseGameLines(rest))
        case (Some(f), Some(fs)) => Some([f] + fs)
        case _ => None
  }

  lemma DisplayLineEnd(g: Game)
    requires Listable(g)
    ensures var line := g.DisplayLine();
      line == line[..|line| - 1] + ['\n'] && '\n' !in line[..|line| - 1]
  {
    var line := g.DisplayLine();
    var hs, vs := NatToString(g.homeTeamScore as nat), NatToString(g.visitorTeamScore as nat);
    assert line[..|line| - 1] == g.homeTeam.abbreviation + " " + hs + ":" + vs + " " + g.visitorTeam.abbreviation;
    DigitsHaveNo(hs, '\n');
    DigitsHaveNo(vs, '\n');
  }

  lemma ParseGameLinesStep(line: string, rest: string, f: LineFields, fs: seq<LineFields>)
    requires ReadsAs(line, f)
    requires ParseGameLines(rest) == Some(fs)
    ensures ParseGameLines(line + rest) == Some([f] + fs)
  {
    var body := line[..|line| - 1];
    assert line == body + ['\n'];
    assert line + rest == body + ['\n'] + rest;
    SplitAtFirst(body, '\n', rest);
    assert body + "\n" == line;
  }

  /** A line that ends in its only newline and reads back as `f`. */
  predicate ReadsAs(line: string, f: LineFields) {
    line != [] && line[|line| - 1] == '\n' && '\n' !in line[..|line| - 1] && ParseDisplayLine(line) == Some(f)
  }

  lemma {:induction false} ConcatRoundTrip(lines: seq<string>, fields: seq<LineFields>)
    requires |lines| == |fields|
    requires forall i :: 0 <= i < |lines| ==> ReadsAs(lines[i], fields[i])
    ensures ParseGameLines(Concat(lines)) == Some(fields)
    decreases |lines|
  {
    if lines != [] {
      assert ReadsAs(lines[0], fields[0]);
      ConcatRoundTrip(lines[1..], fields[1..]);
      ParseGameLinesStep(lines[0], Concat(lines[1..]), fields[0], fields[1..]);
      assert [fields[0]] + fields[1..] == fields;
    }
  }

  /** The joined lines list every game, in order, and nothing else. */
  lemma GameLinesRoundTrip(games: seq<Game>)
    requires forall i :: 0 <= i < |games| ==> Listable(games[i])
    ensures ParseGameLines(GameLines(games)) == Some(FieldsOf(games))
  {
    var lines, fields := DisplayLines(games), FieldsOf(games);
    forall i | 0 <= i < |games|
      ensures ReadsAs(lines[i], fields[i])
    {
      DisplayLineEnd(games[i]);
      assert ' ' !in games[i].homeTeam.abbreviation by {
        assert PlainText(games[i].homeTeam.abbreviation);
      }
      DisplayLineRoundTrip(games[i]);
    }
    ConcatRoundTrip(lines, fields);
  }

}
