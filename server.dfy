/**
 * The request handlers of the server, reduced to what they compute from
 * their inputs: the exact-name search over the app catalog, the tags of a
 * game-details response, and the reshaping and date gate of a submission
 * before the page is created in the Notion database.
 */
module Server {
  import opened Wrappers
  import opened JsString

  /** One entry of the app catalog. */
  datatype App = App(name: string, appid: nat)

  /** A JSON response: an HTTP status and either a list of apps or an error message. */
  datatype SearchBody = Games(games: seq<App>) | SearchError(error: string)
  datatype SearchResponse = SearchResponse(status: nat, body: SearchBody)

  const NO_MATCHES := "No matches found"
  const SEARCH_FAILED := "Error fetching game information"

  /** The filter predicate of /search-games: equal names once both are lower-cased. */
  predicate NameMatches(game: App, searchTerm: string): (b: bool)
    ensures b ==> |game.name| == |searchTerm|
    ensures b ==> forall i :: 0 <= i < |searchTerm| ==> !('A' <= searchTerm[i] <= 'Z')
  {
    ToLower(game.name) == searchTerm
  }

  /** The catalog entries whose lower-cased name is searchTerm, every copy of each, in
      catalog order. */
  function FilterByName(games: seq<App>, searchTerm: string): (r: seq<App>)
    ensures |r| <= |games|
    ensures forall g :: g in r <==> g in games && NameMatches(g, searchTerm)
    decreases |games|
  {
    if |games| == 0 then []
    else
      assert games == [games[0]] + games[1..];
      (if NameMatches(games[0], searchTerm) then [games[0]] else []) + FilterByName(games[1..], searchTerm)
  }

  /** Every matching entry is kept as often as the catalog lists it, every other one dropped. */
  lemma {:induction false} FilterByNameCounts(games: seq<App>, searchTerm: string, g: App)
    ensures multiset(FilterByName(games, searchTerm))[g]
         == if NameMatches(g, searchTerm) then multiset(games)[g] else 0
    decreases |games|
  {
    if |games| > 0 {
      FilterByNameCounts(games[1..], searchTerm, g);
      assert games == [games[0]] + games[1..];
    }
  }

  /** Filtering distributes over concatenation, so the matches keep the catalog's order. */
  lemma {:induction false} FilterByNameAppend(a: seq<App>, b: seq<App>, searchTerm: string)
    ensures FilterByName(a + b, searchTerm) == FilterByName(a, searchTerm) + FilterByName(b, searchTerm)
    decreases |a|
  {
    if |a| == 0 {
      assert a + b == b;
    } else {
      var head := if NameMatches(a[0], searchTerm) then [a[0]] else [];
      assert (a + b)[0] == a[0];
      assert (a + b)[1..] == a[1..] + b;
      assert FilterByName(a + b, searchTerm) == head + FilterByName(a[1..] + b, searchTerm);
      FilterByNameAppend(a[1..], b, searchTerm);
      assert FilterByName(a, searchTerm) == head + FilterByName(a[1..], searchTerm);
      var x, y := FilterByName(a[1..], searchTerm), FilterByName(b, searchTerm);
      assert head + (x + y) == (head + x) + y;
    }
  }

  /** When exactly one catalog index matches, the match list is that one entry. */
  lemma {:induction false} FilterByNameUnique(games: seq<App>, searchTerm: string, i: nat)
    requires i < |games| && NameMatches(games[i], searchTerm)
    requires forall j :: 0 <= j < |games| && j != i ==> !NameMatches(games[j], searchTerm)
    ensures FilterByName(games, searchTerm) == [games[i]]
    decreases |games|
  {
    if i == 0 {
      FilterByNameNone(games[1..], searchTerm);
    } else {
      FilterByNameUnique(games[1..], searchTerm, i - 1);
    }
  }

  /** No matching entry, no match. */
  lemma {:induction false} FilterByNameNone(games: seq<App>, searchTerm: string)
    requires forall j :: 0 <= j < |games| ==> !NameMatches(games[j], searchTerm)
    ensures FilterByName(games, searchTerm) == []
    decreases |games|
  {
    if |games| > 0 {
      FilterByNameNone(games[1..], searchTerm);
    }
  }

  /** Two matching entries at different positions give at least two matches. */
  lemma FilterByNameTwo(games: seq<App>, searchTerm: string, i: nat, j: nat)
    requires i < j < |games|
    requires NameMatches(games[i], searchTerm) && NameMatches(games[j], searchTerm)
    ensures |FilterByName(games, searchTerm)| >= 2
  {
    assert games == games[..j] + games[j..];
    FilterByNameAppend(games[..j], games[j..], searchTerm);
    assert games[i] in games[..j];
    assert games[j] in games[j..];
    assert games[i] in FilterByName(games[..j], searchTerm);
    assert games[j] in FilterByName(games[j..], searchTerm);
  }

  /** GET /search-games?name=query over the catalog read from disk (None when reading or
      parsing the app list failed): 200 with the matches as they are, 404 when there is
      none, 500 when the catalog could not be read. */
  function SearchGames(query: string, catalog: Option<seq<App>>): (r: SearchResponse)
    ensures catalog.None? ==> r == SearchResponse(500, SearchError(SEARCH_FAILED))
    ensures catalog.Some? ==>
              var matches := FilterByName(catalog.value, ToLower(query));
              if |matches| > 0 then r == SearchResponse(200, Games(matches))
              else r == SearchResponse(404, SearchError(NO_MATCHES))
    ensures r.status == 200 <==> r.body.Games?
    ensures r.body.Games? ==> |r.body.games| > 0
  {
    match catalog
    case None => SearchResponse(500, SearchError(SEARCH_FAILED))
    case Some(allGames) =>
      var matches := FilterByName(allGames, ToLower(query));
      if |matches| > 0 then SearchResponse(200, Games(matches))
      else SearchResponse(404, SearchError(NO_MATCHES))
  }

  /** The search ignores the case of the query: queries that agree once lower-cased get
      the same response, in particular query and its lower-cased form. */
  lemma SearchIgnoresCase(q1: string, q2: string, catalog: Option<seq<App>>)
    requires ToLower(q1) == ToLower(q2)
    ensures SearchGames(q1, catalog) == SearchGames(q2, catalog)
    ensures SearchGames(q1, catalog) == SearchGames(ToLower(q1), catalog)
  {
    ToLowerIdempotent(q1);
  }

  /** A response is 404 exactly when the catalog holds no entry of that name. */
  lemma SearchNotFoundIff(query: string, catalog: seq<App>)
    ensures SearchGames(query, Some(catalog)).status == 404
        <==> forall j :: 0 <= j < |catalog| ==> !NameMatches(catalog[j], ToLower(query))
  {
    var matches := FilterByName(catalog, ToLower(query));
    if forall j :: 0 <= j < |catalog| ==> !NameMatches(catalog[j], ToLower(query)) {
      FilterByNameNone(catalog, ToLower(query));
    } else {
      var j :| 0 <= j < |catalog| && NameMatches(catalog[j], ToLower(query));
      assert catalog[j] in matches;
    }
  }

  /** A genre of the upstream game details. */
  datatype Genre = Genre(description: string)

  /** The upstream details record for one app; genres may be absent. */
  datatype GameDetails = GameDetails(
    name: string, steamAppId: nat, shortDescription: string, releaseDate: string,
    genres: Option<seq<Genre>>)

  datatype DetailsResponse =
    | DetailsOk(details: GameDetails, tags: seq<string>)
    | DetailsError(status: nat, error: string)

  const DETAILS_FAILED := "Error fetching game details"

  /** The tags of /game-details: the genre descriptions in order, none when genres is absent. */
  function GenreTags(genres: Option<seq<Genre>>): (tags: seq<string>)
    ensures genres.None? ==> tags == []
    ensures genres.Some? ==> |tags| == |genres.value|
    ensures genres.Some? ==> forall i :: 0 <= i < |tags| ==> tags[i] == genres.value[i].description
  {
    match genres
    case None => []
    case Some(gs) => seq(|gs|, i requires 0 <= i < |gs| => gs[i].description)
  }

  /** GET /game-details?appId=...: the upstream record with its genre tags alongside,
      or 500 when the upstream lookup failed. */
  function GameDetailsResponse(upstream: Result<GameDetails, string>): (r: DetailsResponse)
    ensures upstream.Failure? ==> r == DetailsError(500, DETAILS_FAILED)
    ensures upstream.Success? ==>
              r.DetailsOk? && r.details == upstream.value && r.tags == GenreTags(upstream.value.genres)
  {
    match upstream
    case Failure(_) => DetailsError(500, DETAILS_FAILED)
    case Success(details) => DetailsOk(details, GenreTags(details.genres))
  }

  /** One 'X' at the very end is removed, nothing else. */
  function StripTrailingX(t: string): (r: string)
    ensures (|t| > 0 && t[|t| - 1] == 'X') ==> t == r + "X"
    ensures !(|t| > 0 && t[|t| - 1] == 'X') ==> r == t
  {
    if |t| > 0 && t[|t| - 1] == 'X' then t[..|t| - 1] else t
  }

  /** One label of the submitted tag string: the piece trimmed, then one trailing 'X' removed. */
  function ParseTag(piece: string): (tag: string)
  {
    StripTrailingX(Trim(piece))
  }

  /** The two cases of a label: a trimmed piece ending in 'X' is the label followed by that
      'X'; any other trimmed piece is the label itself. */
  lemma ParseTagCases(piece: string)
    ensures var t, tag := Trim(piece), ParseTag(piece);
            if |t| > 0 && t[|t| - 1] == 'X' then t == tag + "X" else tag == t
  {
  }

  /** A trimmed piece loses at most its one trailing 'X'. */
  lemma ParseTagTrimmed(v: string)
    requires IsTrimmed(v)
    ensures ParseTag(v) == StripTrailingX(v)
  {
    TrimTrimmed(v);
  }

  /** A trimmed label behind any white space parses to itself less one trailing 'X'. */
  lemma ParseTagPadded(w: string, v: string)
    requires AllWhite(w) && IsTrimmed(v)
    ensures ParseTag(w + v) == StripTrailingX(v)
  {
    TrimDropsWhitePrefix(w, v);
    TrimTrimmed(v);
  }

  /** "XX" becomes "X": only one trailing 'X' goes. */
  lemma ParseTagDoubleX()
    ensures ParseTag("XX") == "X"
  {
    ParseTagTrimmed("XX");
  }

  /** An 'X' that is not last is kept. */
  lemma ParseTagInnerX()
    ensures ParseTag("aXbX") == "aXb"
  {
    ParseTagTrimmed("aXbX");
  }

  /** The labels of a submitted tag string: one per comma-separated piece, each parsed alone. */
  function ParseTags(tags: string): (labels: seq<string>)
    ensures |labels| == Count(tags, ',') + 1
    ensures forall i :: 0 <= i < |labels| ==> labels[i] == ParseTag(Split(tags, ',')[i])
  {
    var pieces := Split(tags, ',');
    seq(|pieces|, i requires 0 <= i < |pieces| => ParseTag(pieces[i]))
  }

  /** An empty tag string still yields one label, the empty one. */
  lemma ParseTagsEmpty()
    ensures ParseTags("") == [""]
  {
    assert Trim("") == "";
  }

  /** One option of a Notion multi-select property. */
  datatype SelectOption = SelectOption(name: string)

  /** The multi-select options filed for the parsed labels, in order. */
  function TagsToSave(labels: seq<string>): (options: seq<SelectOption>)
    ensures |options| == |labels|
    ensures forall i :: 0 <= i < |options| ==> options[i] == SelectOption(labels[i])
  {
    seq(|labels|, i requires 0 <= i < |labels| => SelectOption(labels[i]))
  }

  /** The names of a list of multi-select options, in order. */
  function OptionNames(options: seq<SelectOption>): (names: seq<string>)
    ensures |names| == |options|
  {
    seq(|options|, i requires 0 <= i < |options| => options[i].name)
  }

  /** The option names read back give the labels: reshaping loses nothing. */
  lemma TagsToSaveNames(labels: seq<string>)
    ensures OptionNames(TagsToSave(labels)) == labels
  {
  }

  /** The body of POST /add-game-to-notion, as form fields. */
  datatype AddGameRequest = AddGameRequest(
    name: string, tags: string, description: string, date: string, id: string)

  /** The properties of the page to create; the date and the id are kept as received,
      without their conversion to an ISO timestamp and to a number. */
  datatype PageProperties = PageProperties(
    name: string, appId: string, tags: seq<SelectOption>, created: string, description: string)

  datatype AddGameResponse = AddGameResponse(status: nat, message: string, detail: string)

  /** What the handler did: the page it asked Notion to create, if any, and its response. */
  datatype AddGameOutcome = AddGameOutcome(created: Option<PageProperties>, response: AddGameResponse)

  const ADDED := "Game added successfully!"
  const INVALID_DATE := "Invalid date format"
  const INVALID_DATE_DETAIL := "Invalid date format in request"
  const ADD_FAILED := "Error adding game to Notion"

  /** The page a submission asks for. */
  function PageFor(req: AddGameRequest): (p: PageProperties)
    ensures OptionNames(p.tags) == ParseTags(req.tags)
    ensures p.name == req.name && p.appId == req.id && p.created == req.date
    ensures p.description == req.description
  {
    PageProperties(req.name, req.id, TagsToSave(ParseTags(req.tags)), req.date, req.description)
  }

  /** POST /add-game-to-notion. isValidDate stands for the check that the date string
      parses to a real time; createPage stands for the Notion call, giving the new page or
      an error message. */
  function AddGameToNotion(
    req: AddGameRequest,
    isValidDate: string -> bool,
    createPage: PageProperties -> Result<string, string>): (out: AddGameOutcome)
    ensures !isValidDate(req.date) ==>
              out.created == None && out.response == AddGameResponse(400, INVALID_DATE, INVALID_DATE_DETAIL)
    ensures isValidDate(req.date) ==> out.created == Some(PageFor(req))
    ensures isValidDate(req.date) && createPage(PageFor(req)).Success? ==>
              out.response == AddGameResponse(200, ADDED, createPage(PageFor(req)).value)
    ensures isValidDate(req.date) && createPage(PageFor(req)).Failure? ==>
              out.response == AddGameResponse(500, ADD_FAILED, createPage(PageFor(req)).error)
    ensures out.response.status == 200 ==> out.created.Some?
  {
    if !isValidDate(req.date) then
      AddGameOutcome(None, AddGameResponse(400, INVALID_DATE, INVALID_DATE_DETAIL))
    else
      var page := PageFor(req);
      match createPage(page)
      case Success(newGame) => AddGameOutcome(Some(page), AddGameResponse(200, ADDED, newGame))
      case Failure(message) => AddGameOutcome(Some(page), AddGameResponse(500, ADD_FAILED, message))
  }
}
