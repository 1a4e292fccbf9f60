# notion_steam core, modelled in Dafny

notion_steam is a small web application. A user searches the local Steam app
catalog by name, picks a game, and files it as a page in a Notion database,
together with a set of category tags. This project models the parts of it that
compute something and proves what they promise.

- **The tag chip widget of the browser form** (`TagWidget.TagInput`).
  - It holds an ordered list of at most ten chips. Each chip has a trimmed,
    non-empty label and a colour drawn from a fixed 20-entry palette.
  - Enter or ',' commits the trimmed input as a chip. The input is disabled,
    with the "Max Tags Reached" placeholder, exactly when the list is full.
  - A chip's delete button removes it. The input is re-enabled when the live
    count of the remaining chips is below ten.
  - Auto-population commits every genre description of a selected game as if
    Enter had been pressed.
  - On submission the widget sends the chips' trimmed texts joined with ", ".
- **The game-search side of the browser** (`GameClient`):
  - the empty-name guard;
  - the error check on the server's answer;
  - the three-way dispatch between a list of option buttons, a direct
    selection, and the "No games found" error.
- **The request handlers of the server** (`Server`):
  - the exact, case-insensitive name filter over the catalog, with its
    200 / 404 / 500 answers;
  - the genre tags of a game-details response;
  - the parsing of the submitted tag string: split on ',', trim, strip one
    trailing 'X';
  - the reshaping into Notion multi-select options;
  - the date gate in front of page creation.
- **Properties across client and server** (`RoundTrip`):
  - the chip labels a form sends come back as the labels the server files;
  - what the search box shows for each kind of catalog answer.

The JavaScript string built-ins these use live in `JsString`:

- `trim`, with the full ECMAScript white-space and line-terminator set;
- `split` on one character;
- `join`;
- `toLowerCase`;
- the decimal rendering of an app id.

Two details of the client decide what the server receives.

- **Serialisation.** A chip's textContent is its label followed by its delete
  button's text "X" (public/index.js:74, 82, 91). The form joins the trimmed
  textContents with ", " (public/index.js:109-111), so chips a, b, c are sent
  as "aX, bX, cX" (`TagWidget.SerialiseMarked`). The server removes one
  trailing 'X' from each trimmed piece (server.js:87).
  - With at least one chip and no comma in any label, the server's labels are
    the chip labels, in order (`RoundTrip.SerialiseParseRoundTrip`).
  - A label holding a comma arrives as two labels (`RoundTrip.CommaSplitsLabel`).
  - A form without chips sends "", which the server reads as one empty label
    (`RoundTrip.EmptyFormSendsOneEmptyTag`).
- **Removal.** The delete handler counts the remaining chips again after the
  removal (public/index.js:85). The input is re-enabled whenever fewer than ten
  remain (`TagWidget.TagInput.Remove`).

## Model

| member | source | states |
|---|---|---|
| JsString.Trim | public/index.js:59 | the result has no white space at either end, is no longer than the input, and is empty exactly when the input is all white space |
| JsString.TrimSlice | server.js:87 | the result is the slice of the input that starts right after its leading white-space run, with only white space before it and after it |
| JsString.LeadingWhite | server.js:87 | the count of leading white-space characters: all of them white, the next one not |
| JsString.TrailingWhite | server.js:87 | the count of trailing white-space characters: all of them white, the one before not |
| JsString.TrimTrimmed | server.js:87 | trimming a string with no outer white space changes nothing |
| JsString.TrimDropsLeadingWhite | server.js:87 | one leading white-space character does not change the trimmed result |
| JsString.TrimDropsWhitePrefix | server.js:87 | any white-space prefix (such as the space after ", ") does not change the trimmed result |
| JsString.Split | server.js:87 | splitting on a character yields one more piece than there are separators, and no piece contains the separator |
| JsString.JoinSplit | server.js:87 | joining the pieces of a split with the separator gives back the original string |
| JsString.Join | public/index.js:111 | joining no parts gives the empty string, and a join of one or more parts starts with the first part |
| JsString.SplitWithoutSep | server.js:87 | a string without the separator splits into itself alone |
| JsString.SplitAtFirstSep | server.js:87 | a separator-free prefix followed by the separator becomes the first piece, then the pieces of the rest |
| JsString.SplitConsNonSep | server.js:87 | a leading non-separator character joins the first piece |
| JsString.ToLower | server.js:29-38 | lower-casing keeps the length, turns each ASCII capital into its lower-case letter (32 code points on), and leaves every other character as it was |
| JsString.ToLowerIdempotent | server.js:38 | lower-casing keeps the length, leaves no capital behind, and applying it twice is applying it once |
| JsString.DigitChar | public/index.js:154 | a digit below ten renders as a character '0'..'9' |
| JsString.NumberToString | public/index.js:154 | an app id renders as decimal digits with no leading zero |
| JsString.NumberToStringRoundTrip | public/index.js:154 | reading back the rendered digits gives the app id |
| TagWidget.ColorIndex | public/index.js:52 | the draw scaled by the palette length and rounded down is a valid palette slot for every draw in [0, 1) |
| TagWidget.GetUniqueColor | public/index.js:45-53 | the colour picked is always one of the palette entries |
| TagWidget.PaletteHasDuplicate | public/index.js:46-51 | the palette has 20 slots, and '#2E8B57' at slots 1 and 14 is its only repeated colour |
| TagWidget.CommitLabels | public/index.js:56-102 | a commit key with a non-blank input and room appends the trimmed input; anything else leaves the labels as they were |
| TagWidget.CommitMany | public/index.js:56-102 | a series of key presses keeps the old labels, in order, as a prefix of the result: it never removes or reorders a label |
| TagWidget.CommitManyBounded | public/index.js:65-99 | any series of key presses starting from at most ten labels ends with at most ten; it only appends, and every added label is trimmed and non-empty |
| TagWidget.GenrePresses | public/index.js:173-177 | the auto-population presses Enter once per genre description, in order, with that description in the input |
| TagWidget.Committed | public/index.js:59-63 | one Enter press adds at most one label: the trimmed input, exactly when it is not blank |
| TagWidget.GenrePopulation | public/index.js:173-177 | auto-population appends the non-blank trimmed descriptions in order, as many as there is room for, and drops the rest |
| TagWidget.GenreStep | public/index.js:173-177 | one more genre extends the labels by its press's label exactly when room remains |
| TagWidget.GenrePressesPrefix | public/index.js:174-177 | dropping the last description drops exactly the last key press |
| TagWidget.RemoveAt | public/index.js:84 | removing chip i keeps the chips before it and shifts the ones after it down by one |
| TagWidget.Chip.TextContent | public/index.js:74-91 | a chip's textContent is its label followed by the delete button's "X"; `TagWidget.MarkSurvivesTrim` states this |
| TagWidget.ChipTexts | public/index.js:109-110 | one text per chip; with trimmed labels `TagWidget.ChipTextsOfTrimmed` gives each text as the label followed by "X" |
| TagWidget.MarkSurvivesTrim | public/index.js:74-91 | a chip's textContent is its label followed by the delete button's "X", so trimming it never gives the empty string |
| TagWidget.ChipTextOfTrimmed | public/index.js:74-91 | a chip's trimmed textContent is its label followed by the delete button's "X" |
| TagWidget.ChipTextsOfTrimmed | public/index.js:109-110 | with trimmed labels, the trimmed texts of all chips are their labels each followed by "X" |
| TagWidget.SerialiseMarked | public/index.js:109-111 | the tags field is the labels, each followed by "X", joined with ", " |
| TagWidget.Serialise | public/index.js:109-111 | the tags field is empty exactly when there are no chips |
| TagWidget.AppendWellFormed | public/index.js:72-92 | appending a well-formed chip appends its label and keeps every chip well-formed |
| TagWidget.GrewTrans | public/index.js:56-102 | two steps that each only append palette-coloured chips and either keep the input's state or disable it as full make one such step |
| TagWidget.GenreInputAtCapacity | public/index.js:65-69 | a genre press on a full list leaves its description in the input |
| TagWidget.TagInput.constructor | public/index.js:86-87 | the assumed start state of the page (see "## Left out"): no chips, empty input, enabled, with the open placeholder whose text these lines set; it is valid |
| TagWidget.TagInput.SetValue | public/index.js:175 | writing into the input changes only its value |
| TagWidget.TagInput.Commit | public/index.js:56-102 | other keys or a blank input change nothing; at capacity the input is disabled with "Max Tags Reached" and is not cleared; otherwise the chip is appended with a palette colour, the input is cleared, and a full list disables the input; the labels follow CommitLabels; validity is preserved |
| TagWidget.TagInput.Remove | public/index.js:83-88 | the chip goes and the rest keep their order; when the live count is below ten the input is enabled with the open placeholder; from a valid state the result is valid and open |
| TagWidget.TagInput.EnterGenre | public/index.js:175-176 | the labels follow one Enter press; the input is cleared when the press appends and keeps the description otherwise; the chips only grow, by palette colours; the input keeps its state or becomes disabled as full; validity is preserved |
| TagWidget.TagInput.PopulateGenres | public/index.js:173-177 | the loop's labels are the series of Enter presses, hence the existing labels plus the non-blank trimmed descriptions that fit; the chips only grow, by palette colours; the input keeps its state or ends disabled as full; it ends holding its old value when there is no genre, nothing when the last press appended, and the last description otherwise; validity is preserved |
| TagWidget.TagInput.FormTags | public/index.js:109-111 | the tags field is empty exactly when the widget has no chips |
| TagWidget.TagInput.FormTagsOfValid | public/index.js:109-111 | in every valid state the form sends each label followed by "X", joined with ", " |
| Server.FilterByName | server.js:37-39 | an entry is in the result exactly when it is in the catalog and its lower-cased name equals the search term |
| Server.NameMatches | server.js:37-39 | a matching name is as long as the search term, and a term holding an ASCII capital matches nothing |
| Server.FilterByNameCounts | server.js:37-39 | every matching entry is kept as often as the catalog lists it, and every other entry is dropped |
| Server.FilterByNameAppend | server.js:37-39 | filtering distributes over concatenation, so matches keep catalog order |
| Server.FilterByNameUnique | server.js:37-39 | when exactly one index matches, the result is that one entry |
| Server.FilterByNameNone | server.js:37-39 | when no index matches, the result is empty |
| Server.FilterByNameTwo | server.js:37-39 | two matching indices give at least two matches |
| Server.SearchGames | server.js:28-52 | an unreadable catalog gives 500; otherwise the nonempty matches give 200 and no match gives 404 "No matches found"; status 200 carries a list, and only a non-empty one |
| Server.SearchIgnoresCase | server.js:29 | queries that agree once lower-cased get the same response |
| Server.SearchNotFoundIff | server.js:41-47 | the response is 404 exactly when no catalog entry has the name |
| Server.GenreTags | server.js:62 | the tags are the genre descriptions in order, none when genres is absent |
| Server.GameDetailsResponse | server.js:55-74 | a failed lookup gives 500; a successful one returns the details with their genre tags |
| Server.StripTrailingX | server.js:87 | one 'X' at the very end is removed, and a string not ending in 'X' is unchanged |
| Server.ParseTag | server.js:87 | a piece's label is the piece trimmed, then stripped of one trailing 'X'; `Server.ParseTagCases` states the two cases |
| Server.ParseTagCases | server.js:87 | a trimmed piece ending in 'X' is the label followed by that 'X'; any other trimmed piece is the label itself |
| Server.ParseTagTrimmed | server.js:87 | a piece with no outer white space only loses its trailing 'X' |
| Server.ParseTagPadded | server.js:87 | white space before a trimmed piece does not change its label |
| Server.ParseTagDoubleX | server.js:87 | "XX" becomes "X": only one trailing 'X' is removed |
| Server.ParseTagInnerX | server.js:87 | an 'X' that is not last is kept: "aXbX" becomes "aXb" |
| Server.ParseTags | server.js:87 | one label per comma-separated piece, in order, each parsed alone |
| Server.ParseTagsEmpty | server.js:87 | the empty tag string yields one empty label |
| Server.TagsToSave | server.js:90 | one multi-select option per label, in order, named by it |
| Server.TagsToSaveNames | server.js:90 | reading the option names back gives the labels |
| Server.PageFor | server.js:107-117 | the page's options name exactly the parsed labels, and the name, id, date and description are the request's own |
| Server.AddGameToNotion | server.js:76-126 | an invalid date gives 400 and creates nothing; a valid one asks for the page with the parsed tags, then answers 200 with the new page or 500 with the error; status 200 implies a page was requested |
| GameClient.OptionButtons | public/index.js:152-157 | one button per game, in order, labelled with its name and app id, selecting that app |
| GameClient.ButtonText | public/index.js:154 | a button's text starts with the game's name and ends with ')' |
| GameClient.ButtonTextDistinct | public/index.js:154 | two games of the same name with different app ids get different button texts |
| GameClient.DisplayGameOptions | public/index.js:149-163 | the result is an error exactly when the list is empty ("No games found"), one game is selected directly, and several give the option buttons of the list, one per game in order |
| GameClient.ShowSearchResponse | public/index.js:137-145 | an error body always ends in an alert, carrying the error's text when it is non-empty and "No games found" when it is empty; a non-empty list is shown as displayGameOptions offers it, and an empty one ends in the "No games found" alert; a direct selection comes only from a one-game list; the validity message never appears |
| GameClient.HandleGameSearch | public/index.js:129-146 | the validity message appears exactly when the trimmed name is empty; otherwise the view is the answer to the trimmed name |
| RoundTrip.SplitJoined | public/index.js:111 | texts without commas, joined with ", " and split on ',', come back as the first text and then each later text behind one space |
| RoundTrip.ParseJoinedLabels | server.js:87 | a typed tag string such as "a, b, c" parses to its labels, when they hold no comma, no outer white space and no trailing 'X' |
| RoundTrip.ParseChipText | server.js:87 | a chip text behind white space parses back to the chip's label |
| RoundTrip.ParseMarkedLabel | server.js:87 | a chip text on its own parses back to the chip's label |
| RoundTrip.SerialisedPieces | public/index.js:109-111 | the server's pieces of a serialised chip list are the first chip's text, then each later chip's text behind a space |
| RoundTrip.SerialiseParseRoundTrip | public/index.js:109-111 | with at least one chip and comma-free trimmed labels, the server parses the form's tags field back to exactly the chip labels, in order |
| RoundTrip.CommaSplitsLabel | server.js:87 | a chip "a,b" arrives as the two labels a (less a trailing 'X') and b, so the round trip needs comma-free labels |
| RoundTrip.CommaTextTags | server.js:87 | the server reads the text "a,bX" as the labels a (less a trailing 'X') and b |
| RoundTrip.CommaLabelText | public/index.js:109-111 | the one chip "a,b" is sent as "a,bX" |
| RoundTrip.CommaPieces | server.js:87 | "a,bX" splits into "a" and "bX" at its one comma |
| RoundTrip.EmptyFormSendsOneEmptyTag | public/index.js:109-111 | a form without chips sends "", which the server reads as one empty label |
| RoundTrip.SubmittedPageCarriesLabels | server.js:87-117 | a valid widget with at least one comma-free chip and a valid date makes the server request a page whose options are exactly the chip labels |
| RoundTrip.SearchNeverShowsNoGames | public/index.js:158-162 | through this server, the "No games found" alert never appears, because an empty match list arrives as a 404 error |
| RoundTrip.UnknownNameAlerts | server.js:44-47 | a name that matches no entry ends in the "No matches found" alert |
| RoundTrip.UniqueNameSelectsDirectly | public/index.js:158-159 | a name that matches one entry selects that app without a list |
| RoundTrip.SharedNameOffersChoice | public/index.js:151-157 | a name that matches two or more entries shows a button for every match, in catalog order |

## Left out

- Express routing, static files, body parsing and `listen` are left out: they are framework I/O.
- The browser's fetch calls are left out. The search request is the function parameter `searchGames` of `HandleGameSearch`.
- Reading and parsing the catalog file is not modelled. The catalog arrives as an `Option`: `None` stands for a read or parse failure.
- The Steam client is not modelled. The upstream lookup arrives as a `Result`.
- The Notion client is not modelled. Page creation is the function parameter `createPage`.
- `Date` parsing is not modelled. The date check is the function parameter `isValidDate`.
- `toISOString` and `parseInt` are left out. The page keeps the date and id strings as received.
- The date and id logging is left out too.
- App ids are modelled as unbounded naturals rendered in plain decimal. JavaScript numbers are doubles, so ids above 2^53 would lose precision and ids of 10^21 or more would render in exponent form; Steam app ids are far smaller.
- `Math.random` is modelled as a real draw in [0, 1), passed in. Its floating point and its distribution are left out.
- `JsString.ToLower`: lower-cases ASCII letters only. JavaScript's full Unicode case mapping is left out.
- `JsString.Trim` works on Unicode scalar values, not UTF-16 code units. Unpaired surrogates are left out.
- DOM work is left out: chip styling, element creation, `innerHTML`, `alert`, `reportValidity` and console logging. The model keeps the state that decides behaviour.
- `updateDatabaseId` is left out. It is marked TODO in the client, and the server has no endpoint for it.
- `fetchDatabaseId` is never defined in public/index.js, yet public/index.js:40 passes it to `addEventListener`. Unless another script defines it, that line throws a ReferenceError, and the search handler of line 41 is never registered. This follows from reading the code; the model assumes every handler is registered.
- `handleGameSelection` is only partly modelled. It fills the name, app id, description and date fields; only its genre loop is kept (`TagWidget.TagInput.PopulateGenres`).
- The asynchronous ordering of the promise chains is left out. Each handler runs to completion.
- A request missing the `name` query or the `tags` field throws outside the `try` blocks. The model assumes both are present.
- The initial page markup is not part of this model. The widget starts empty, enabled, with the open placeholder (`TagWidget.TagInput.constructor`).
- `TagWidget.TagInput.Remove`: takes the index of the chip whose button was clicked. It requires that index to exist, because only chips in the list have buttons.
- `TagWidget.TagInput.Commit`: does not consult `disabled`. A disabled input gets no key presses from the user, but the genre loop calls the handler directly.
