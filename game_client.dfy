/**
 * The game-search side of the browser client: the empty-name guard of the
 * search box, the error check on the server's answer, and the three-way
 * dispatch of displayGameOptions (a list of buttons, a direct selection,
 * or the "No games found" error that ends in an alert).
 */
module GameClient {
  import opened Wrappers
  import opened JsString
  import opened Server

  /** A button of the options list: its text and the app it selects when clicked. */
  datatype OptionButton = OptionButton(text: string, appid: nat)

  /** What displayGameOptions does when it does not throw. */
  datatype Selection = Choose(buttons: seq<OptionButton>) | SelectDirectly(appid: nat)

  const NO_GAMES := "No games found"

  /** The button label: the game's name, then its app id in parentheses. */
  function ButtonText(game: App): (t: string)
    ensures |game.name| < |t| && t[..|game.name|] == game.name && t[|t| - 1] == ')'
  {
    game.name + " (AppID: " + NumberToString(game.appid) + ")"
  }

  /** Two games of the same name get different button texts when their app ids differ. */
  lemma ButtonTextDistinct(name: string, a: nat, b: nat)
    requires a != b
    ensures ButtonText(App(name, a)) != ButtonText(App(name, b))
  {
    var prefix := name + " (AppID: ";
    var na, nb := NumberToString(a), NumberToString(b);
    assert ButtonText(App(name, a)) == prefix + (na + ")");
    assert ButtonText(App(name, b)) == prefix + (nb + ")");
    if prefix + (na + ")") == prefix + (nb + ")") {
      assert na + ")" == (prefix + (na + ")"))[|prefix|..];
      assert nb + ")" == (prefix + (nb + ")"))[|prefix|..];
      assert na == (na + ")")[..|na|];
      assert nb == (nb + ")")[..|nb|];
      NumberToStringRoundTrip(a);
      NumberToStringRoundTrip(b);
      assert false;
    }
  }

  /** One button per game, in the order of the list. */
  function OptionButtons(games: seq<App>): (buttons: seq<OptionButton>)
    ensures |buttons| == |games|
    ensures forall i :: 0 <= i < |buttons| ==> buttons[i] == OptionButton(ButtonText(games[i]), games[i].appid)
  {
    seq(|games|, i requires 0 <= i < |games| => OptionButton(ButtonText(games[i]), games[i].appid))
  }

  /** displayGameOptions: several games are offered as buttons, a single game is selected
      at once, and an empty list is the error "No games found". */
  function DisplayGameOptions(games: seq<App>): (r: Result<Selection, string>)
    ensures r.Failure? <==> |games| == 0
    ensures r.Failure? ==> r.error == NO_GAMES
    ensures |games| == 1 ==> r == Success(SelectDirectly(games[0].appid))
    ensures |games| > 1 ==> r == Success(Choose(OptionButtons(games)))
    ensures |games| > 1 ==> forall i :: 0 <= i < |games| ==> r.value.buttons[i].appid == games[i].appid
  {
    if |games| > 1 then Success(Choose(OptionButtons(games)))
    else if |games| == 1 then Success(SelectDirectly(games[0].appid))
    else Failure(NO_GAMES)
  }

  /** What the user ends up seeing after typing into the search box. */
  datatype SearchView =
    | Validity(message: string)   // the custom validity message, no request made
    | Alert(message: string)      // the alert of the catch handler
    | Shown(selection: Selection)

  const EMPTY_SEARCH := "Please enter a game name before searching."
  const SEARCH_ALERT := "Error fetching game information: "

  /** The .then/.catch chain on the search response: an error field (when truthy) is thrown,
      and so is the "No games found" of an empty list; both end in the alert. A body whose
      error is the empty string is falsy and reaches displayGameOptions, which finds no
      games in it. */
  function ShowSearchResponse(resp: SearchResponse): (v: SearchView)
    ensures resp.body.SearchError? ==> v.Alert?
    ensures resp.body.SearchError? && resp.body.error != "" ==> v == Alert(SEARCH_ALERT + resp.body.error)
    ensures resp.body.SearchError? && resp.body.error == "" ==> v == Alert(SEARCH_ALERT + NO_GAMES)
    ensures resp.body.Games? && |resp.body.games| > 0 ==> v == Shown(DisplayGameOptions(resp.body.games).value)
    ensures resp.body.Games? && |resp.body.games| == 0 ==> v == Alert(SEARCH_ALERT + NO_GAMES)
    ensures resp.body.Games? ==> (v.Shown? <==> |resp.body.games| > 0)
    ensures v.Shown? && v.selection.SelectDirectly? ==> resp.body.Games? && |resp.body.games| == 1
    ensures !v.Validity?
  {
    match resp.body
    case SearchError(e) =>
      if e != "" then Alert(SEARCH_ALERT + e) else Alert(SEARCH_ALERT + NO_GAMES)
    case Games(games) =>
      match DisplayGameOptions(games)
      case Success(selection) => Shown(selection)
      case Failure(message) => Alert(SEARCH_ALERT + message)
  }

  /** handleGameSearch; searchGames stands for the request to /search-games. */
  function HandleGameSearch(raw: string, searchGames: string -> SearchResponse): (v: SearchView)
    ensures Trim(raw) == "" <==> v == Validity(EMPTY_SEARCH)
    ensures Trim(raw) != "" ==> v == ShowSearchResponse(searchGames(Trim(raw)))
  {
    var gameName := Trim(raw);
    if gameName == "" then Validity(EMPTY_SEARCH)
    else ShowSearchResponse(searchGames(gameName))
  }
}
