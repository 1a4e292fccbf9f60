/**
 * Properties that span the browser and the server: the tags string the
 * form sends and the labels the server files, and the search box's view of
 * the server's exact-name search.
 */
module RoundTrip {
  import opened Wrappers
  import opened JsString
  import opened TagWidget
  import opened Server
  import opened GameClient

  /** Joining comma-free texts with ", " and splitting on ',' gives the first text and then
      each later text behind one space. */
  lemma {:induction false} SplitJoined(texts: seq<string>)
    requires |texts| > 0
    requires forall i :: 0 <= i < |texts| ==> ',' !in texts[i]
    ensures |Split(Join(texts, ", "), ',')| == |texts|
    ensures Split(Join(texts, ", "), ',')[0] == texts[0]
    ensures forall i :: 1 <= i < |texts| ==> Split(Join(texts, ", "), ',')[i] == " " + texts[i]
    decreases |texts|
  {
    if |texts| == 1 {
      SplitWithoutSep(texts[0], ',');
    } else {
      var tail := Join(texts[1..], ", ");
      assert Join(texts, ", ") == texts[0] + [','] + ([' '] + tail);
      SplitAtFirstSep(texts[0], ',', [' '] + tail);
      SplitConsNonSep(' ', tail, ',');
      SplitJoined(texts[1..]);
      var parts := Split(Join(texts, ", "), ',');
      forall i | 1 <= i < |texts| ensures parts[i] == " " + texts[i] {
        if i > 1 {
          assert parts[i] == Split(tail, ',')[i - 1];
          assert texts[1..][i - 1] == texts[i];
        }
      }
    }
  }

  /** A typed tag string such as "a, b, c" parses to its labels: joining labels that hold no
      comma, no outer white space and no trailing 'X' with ", " and parsing gives them back. */
  lemma ParseJoinedLabels(labels: seq<string>)
    requires |labels| > 0
    requires forall i :: 0 <= i < |labels| ==>
               IsTrimmed(labels[i]) && ',' !in labels[i] && !(|labels[i]| > 0 && labels[i][|labels[i]| - 1] == 'X')
    ensures ParseTags(Join(labels, ", ")) == labels
  {
    var parsed := ParseTags(Join(labels, ", "));
    SplitJoined(labels);
    forall i | 0 <= i < |labels| ensures parsed[i] == labels[i] {
      if i == 0 {
        ParseTagTrimmed(labels[0]);
      } else {
        ParseTagPadded(" ", labels[i]);
      }
    }
  }

  /** A chip text behind optional white space parses back to the chip's label. */
  lemma ParseChipText(w: string, v: string)
    requires AllWhite(w) && IsTrimmed(v)
    ensures ParseTag(w + (v + DELETE_LABEL)) == v
  {
    ChipTextOfTrimmed(Chip(v, ""));
    ParseTagPadded(w, v + DELETE_LABEL);
    assert (v + DELETE_LABEL)[..|v|] == v;
  }

  /** A chip text on its own parses back to the chip's label. */
  lemma ParseMarkedLabel(v: string)
    requires IsTrimmed(v)
    ensures ParseTag(v + DELETE_LABEL) == v
  {
    ChipTextOfTrimmed(Chip(v, ""));
    ParseTagTrimmed(v + DELETE_LABEL);
    assert (v + DELETE_LABEL)[..|v|] == v;
  }

  /** The pieces the server splits a serialised chip list into: the first chip's text,
      then each later chip's text behind the space of the ", " separator. */
  lemma SerialisedPieces(chips: seq<Chip>)
    requires |chips| > 0
    requires forall i :: 0 <= i < |chips| ==> IsTrimmed(chips[i].value) && ',' !in chips[i].value
    ensures |Split(Serialise(chips), ',')| == |chips|
    ensures Split(Serialise(chips), ',')[0] == chips[0].value + DELETE_LABEL
    ensures forall i :: 1 <= i < |chips| ==> Split(Serialise(chips), ',')[i] == " " + (chips[i].value + DELETE_LABEL)
  {
    var texts := Marked(chips);
    SerialiseMarked(chips);
    assert forall i :: 0 <= i < |texts| ==> ',' !in texts[i] by {
      forall i | 0 <= i < |texts| ensures ',' !in texts[i] {
        assert texts[i] == chips[i].value + DELETE_LABEL;
      }
    }
    SplitJoined(texts);
  }

  /** The chips' labels survive the trip from the form to the server: when there is at least
      one chip and no label holds a comma or outer white space, the server's labels are the
      chip labels, in order. */
  lemma SerialiseParseRoundTrip(chips: seq<Chip>)
    requires |chips| > 0
    requires forall i :: 0 <= i < |chips| ==> IsTrimmed(chips[i].value) && ',' !in chips[i].value
    ensures ParseTags(Serialise(chips)) == Values(chips)
  {
    var pieces := Split(Serialise(chips), ',');
    SerialisedPieces(chips);
    var labels := ParseTags(Serialise(chips));
    forall i | 0 <= i < |chips| ensures labels[i] == chips[i].value {
      if i == 0 {
        ParseMarkedLabel(chips[0].value);
      } else {
        ParseChipText(" ", chips[i].value);
      }
    }
  }

  /** Without the comma condition the trip fails: a chip "a,b" arrives as the two labels
      "a" and "b" (and "a" loses a trailing 'X' if it has one). */
  lemma CommaSplitsLabel(a: string, b: string, color: string)
    requires IsTrimmed(a) && IsTrimmed(b) && ',' !in a && ',' !in b
    ensures ParseTags(Serialise([Chip(a + "," + b, color)])) == [StripTrailingX(a), b]
  {
    CommaLabelText(a, b, color);
    CommaTextTags(a, b);
  }

  /** The server reads the text "a,bX" as the labels a (without a trailing 'X') and b. */
  lemma CommaTextTags(a: string, b: string)
    requires IsTrimmed(a) && IsTrimmed(b) && ',' !in a && ',' !in b
    ensures ParseTags(a + "," + b + DELETE_LABEL) == [StripTrailingX(a), b]
  {
    var text := a + "," + b + DELETE_LABEL;
    CommaPieces(a, b);
    var labels := ParseTags(text);
    assert |labels| == 2 && labels[0] == ParseTag(a) && labels[1] == ParseTag(b + DELETE_LABEL);
    ParseTagTrimmed(a);
    ParseMarkedLabel(b);
  }

  /** The one chip "a,b" is sent as its text "a,bX". */
  lemma CommaLabelText(a: string, b: string, color: string)
    requires IsTrimmed(a) && IsTrimmed(b)
    ensures Serialise([Chip(a + "," + b, color)]) == a + "," + b + DELETE_LABEL
  {
    var v := a + "," + b;
    assert IsTrimmed(v) by {
      if |a| > 0 { assert v[0] == a[0]; } else { assert v[0] == ','; }
      if |b| > 0 { assert v[|v| - 1] == b[|b| - 1]; } else { assert v[|v| - 1] == ','; }
    }
    ChipTextOfTrimmed(Chip(v, color));
    assert ChipTexts([Chip(v, color)]) == [v + DELETE_LABEL];
  }

  /** The text "a,bX" splits on its one comma. */
  lemma CommaPieces(a: string, b: string)
    requires ',' !in a && ',' !in b
    ensures Split(a + "," + b + DELETE_LABEL, ',') == [a, b + DELETE_LABEL]
  {
    assert a + "," + b + DELETE_LABEL == a + [','] + (b + DELETE_LABEL);
    SplitAtFirstSep(a, ',', b + DELETE_LABEL);
    assert ',' !in b + DELETE_LABEL;
    SplitWithoutSep(b + DELETE_LABEL, ',');
  }

  /** A form with no chips sends "", which the server reads as one empty label. */
  lemma EmptyFormSendsOneEmptyTag()
    ensures Serialise([]) == ""
    ensures ParseTags(Serialise([])) == [""]
  {
    ParseTagsEmpty();
  }

  /** A submission from a widget in any reachable state, with at least one chip and no comma
      in any label, makes the server ask for a page whose multi-select options are exactly
      the chip labels in order (once the date passes the gate). */
  lemma SubmittedPageCarriesLabels(
    w: TagInput, name: string, description: string, date: string, id: string,
    isValidDate: string -> bool, createPage: PageProperties -> Result<string, string>)
    requires w.Valid() && |w.chips| > 0
    requires forall i :: 0 <= i < |w.chips| ==> ',' !in w.chips[i].value
    requires isValidDate(date)
    ensures var out := AddGameToNotion(AddGameRequest(name, w.FormTags(), description, date, id), isValidDate, createPage);
            out.created.Some? && OptionNames(out.created.value.tags) == w.Labels()
  {
    SerialiseParseRoundTrip(w.chips);
  }

  /** Through the server, the "No games found" error of displayGameOptions never shows:
      an empty match list comes back as a 404 with a non-empty error. */
  lemma SearchNeverShowsNoGames(raw: string, catalog: Option<seq<App>>)
    ensures HandleGameSearch(raw, q => SearchGames(q, catalog)) != Alert(SEARCH_ALERT + NO_GAMES)
  {
    var resp := SearchGames(Trim(raw), catalog);
    if Trim(raw) != "" && resp.body.SearchError? {
      assert resp.body.error == NO_MATCHES || resp.body.error == SEARCH_FAILED;
      assert SEARCH_ALERT + resp.body.error != SEARCH_ALERT + NO_GAMES by {
        var n := |SEARCH_ALERT|;
        assert (SEARCH_ALERT + resp.body.error)[n] == resp.body.error[0];
        assert (SEARCH_ALERT + NO_GAMES)[n] == NO_GAMES[0];
      }
    }
  }

  /** A name that matches no catalog entry ends in the alert for "No matches found". */
  lemma UnknownNameAlerts(raw: string, catalog: seq<App>)
    requires Trim(raw) != ""
    requires forall j :: 0 <= j < |catalog| ==> !NameMatches(catalog[j], ToLower(Trim(raw)))
    ensures HandleGameSearch(raw, q => SearchGames(q, Some(catalog))) == Alert(SEARCH_ALERT + NO_MATCHES)
  {
    FilterByNameNone(catalog, ToLower(Trim(raw)));
  }

  /** A name that matches exactly one catalog entry selects that entry without a list. */
  lemma UniqueNameSelectsDirectly(raw: string, catalog: seq<App>, i: nat)
    requires Trim(raw) != ""
    requires i < |catalog| && NameMatches(catalog[i], ToLower(Trim(raw)))
    requires forall j :: 0 <= j < |catalog| && j != i ==> !NameMatches(catalog[j], ToLower(Trim(raw)))
    ensures HandleGameSearch(raw, q => SearchGames(q, Some(catalog))) == Shown(SelectDirectly(catalog[i].appid))
  {
    FilterByNameUnique(catalog, ToLower(Trim(raw)), i);
  }

  /** A name that matches two or more entries lists every match as a button, in catalog order. */
  lemma SharedNameOffersChoice(raw: string, catalog: seq<App>, i: nat, j: nat)
    requires Trim(raw) != ""
    requires i < j < |catalog|
    requires NameMatches(catalog[i], ToLower(Trim(raw))) && NameMatches(catalog[j], ToLower(Trim(raw)))
    ensures HandleGameSearch(raw, q => SearchGames(q, Some(catalog)))
         == Shown(Choose(OptionButtons(FilterByName(catalog, ToLower(Trim(raw))))))
  {
    var matches := FilterByName(catalog, ToLower(Trim(raw)));
    FilterByNameTwo(catalog, ToLower(Trim(raw)), i, j);
    var resp := SearchGames(Trim(raw), Some(catalog));
    assert resp == SearchResponse(200, Games(matches));
    assert DisplayGameOptions(matches) == Success(Choose(OptionButtons(matches)));
    assert ShowSearchResponse(resp) == Shown(Choose(OptionButtons(matches)));
  }
}
