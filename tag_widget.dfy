/**
 * The tag chip widget of the add-game form: an ordered list of at most
 * MAX_TAGS labels shown as chips, each with a delete button, and the text
 * input that creates them. The input is either open (enabled, inviting
 * placeholder) or full (disabled, "Max Tags Reached").
 */
module TagWidget {
  import opened JsString

  const MAX_TAGS: nat := 10
  const OPEN_PLACEHOLDER := "Enter categories, separate with commas"
  const FULL_PLACEHOLDER := "Max Tags Reached"
  /** The text of each chip's delete button; it becomes part of the chip's textContent. */
  const DELETE_LABEL := "X"

  /** The chip background colours; '#2E8B57' is listed twice. */
  const PALETTE: seq<string> := [
    "#1F1F1F", "#2E8B57", "#4B0082", "#5F9EA0", "#6A5ACD",
    "#708090", "#800000", "#8B4513", "#2F4F4F", "#556B2F",
    "#6B8E23", "#483D8B", "#4A5D23", "#3A5F5A", "#2E8B57",
    "#A9A9A9", "#000080", "#003366", "#003300", "#800080"
  ]

  /** The palette slot a draw in [0, 1) selects: the draw scaled to the palette length, rounded down. */
  function ColorIndex(random: real): (i: int)
    requires 0.0 <= random < 1.0
    ensures 0 <= i < |PALETTE|
  {
    (random * |PALETTE| as real).Floor
  }

  /** getUniqueColor: the palette entry picked by the draw; always a palette colour. */
  function GetUniqueColor(random: real): (c: string)
    requires 0.0 <= random < 1.0
    ensures c in PALETTE
  {
    PALETTE[ColorIndex(random)]
  }

  /** The palette has twenty slots but nineteen distinct colours: '#2E8B57' sits at
      slots 1 and 14, so it is drawn twice as often as any other colour. */
  lemma PaletteHasDuplicate()
    ensures |PALETTE| == 20
    ensures PALETTE[1] == PALETTE[14] == "#2E8B57"
    ensures forall i, j :: 0 <= i < j < |PALETTE| && PALETTE[i] == PALETTE[j] ==> i == 1 && j == 14
  {
  }

  /** One chip: the committed label and its background colour. */
  datatype Chip = Chip(value: string, color: string) {
    /** The chip's textContent: the label followed by its delete button's text. */
    function TextContent(): (t: string)
    {
      value + DELETE_LABEL
    }
  }

  /** The labels of a chip list, in display order. */
  function Values(chips: seq<Chip>): (labels: seq<string>)
    ensures |labels| == |chips|
  {
    seq(|chips|, i requires 0 <= i < |chips| => chips[i].value)
  }

  predicate IsCommitKey(key: string) {
    key == "Enter" || key == ","
  }

  /** Whether a key press with the input holding raw appends a chip to a list of count chips. */
  predicate Appends(count: nat, key: string, raw: string) {
    IsCommitKey(key) && Trim(raw) != "" && count < MAX_TAGS
  }

  /** The labels after one key press on the input holding raw. */
  function CommitLabels(labels: seq<string>, key: string, raw: string): (r: seq<string>)
    ensures Appends(|labels|, key, raw) ==> r == labels + [Trim(raw)]
    ensures !Appends(|labels|, key, raw) ==> r == labels
  {
    if Appends(|labels|, key, raw) then labels + [Trim(raw)] else labels
  }

  /** A key press together with what the input held when it happened. */
  datatype KeyPress = KeyPress(key: string, input: string)

  /** The labels after a series of key presses, earliest first. */
  function CommitMany(labels: seq<string>, presses: seq<KeyPress>): (r: seq<string>)
    ensures |labels| <= |r| && r[..|labels|] == labels
    decreases |presses|
  {
    if |presses| == 0 then labels
    else
      var last := presses[|presses| - 1];
      CommitLabels(CommitMany(labels, presses[..|presses| - 1]), last.key, last.input)
  }

  /** Any series of key presses from at most MAX_TAGS labels ends with at most MAX_TAGS;
      it only ever appends, and every label it adds is trimmed and non-empty. */
  lemma {:induction false} CommitManyBounded(labels: seq<string>, presses: seq<KeyPress>)
    requires |labels| <= MAX_TAGS
    ensures |labels| <= |CommitMany(labels, presses)| <= MAX_TAGS
    ensures CommitMany(labels, presses)[..|labels|] == labels
    ensures forall i :: |labels| <= i < |CommitMany(labels, presses)| ==>
              CommitMany(labels, presses)[i] != "" && IsTrimmed(CommitMany(labels, presses)[i])
    decreases |presses|
  {
    if |presses| > 0 {
      var before := CommitMany(labels, presses[..|presses| - 1]);
      CommitManyBounded(labels, presses[..|presses| - 1]);
      var last := presses[|presses| - 1];
      if Appends(|before|, last.key, last.input) {
        assert (before + [Trim(last.input)])[..|labels|] == before[..|labels|];
      }
    }
  }

  /** The key presses the genre auto-population makes: "Enter" with each description in turn. */
  function GenrePresses(descriptions: seq<string>): (presses: seq<KeyPress>)
    ensures |presses| == |descriptions|
    ensures forall i :: 0 <= i < |presses| ==> presses[i] == KeyPress("Enter", descriptions[i])
  {
    seq(|descriptions|, i requires 0 <= i < |descriptions| => KeyPress("Enter", descriptions[i]))
  }

  /** What one Enter press with d in the input would add: its trimmed form, unless blank. */
  function Committed(d: string): (x: seq<string>)
    ensures |x| <= 1
    ensures |x| == 1 <==> Appends(0, "Enter", d)
    ensures |x| == 1 ==> x[0] == Trim(d)
  {
    if Trim(d) != "" then [Trim(d)] else []
  }

  /** The trimmed descriptions that are not blank, in order. */
  function Committable(descriptions: seq<string>): seq<string>
    decreases |descriptions|
  {
    if |descriptions| == 0 then []
    else
      var d := descriptions[|descriptions| - 1];
      Committable(descriptions[..|descriptions| - 1]) + Committed(d)
  }

  function Take(s: seq<string>, n: nat): (r: seq<string>)
    ensures |r| == if n < |s| then n else |s|
    ensures r == s[..|r|]
  {
    if n < |s| then s[..n] else s
  }

  /** Auto-populating from genres appends the non-blank trimmed descriptions in order,
      as many as there is room for, and drops the rest. */
  lemma {:induction false} GenrePopulation(labels: seq<string>, descriptions: seq<string>)
    requires |labels| <= MAX_TAGS
    ensures CommitMany(labels, GenrePresses(descriptions))
         == labels + Take(Committable(descriptions), MAX_TAGS - |labels|)
    decreases |descriptions|
  {
    if |descriptions| > 0 {
      var n := |descriptions|;
      var init := descriptions[..n - 1];
      var d := descriptions[n - 1];
      var room := MAX_TAGS - |labels|;
      var c := Committable(init);
      var before := CommitMany(labels, GenrePresses(init));
      assert CommitMany(labels, GenrePresses(descriptions)) == CommitLabels(before, "Enter", d) by {
        GenrePressesPrefix(descriptions);
      }
      assert before == labels + Take(c, room) by {
        GenrePopulation(labels, init);
      }
      GenreStep(labels, c, d, room);
    }
  }

  /** One more Enter press extends the closed form by the press's label when there is room. */
  lemma GenreStep(labels: seq<string>, c: seq<string>, d: string, room: nat)
    requires |labels| + room == MAX_TAGS
    ensures CommitLabels(labels + Take(c, room), "Enter", d) == labels + Take(c + Committed(d), room)
  {
    TakeOneMore(c, Committed(d), room);
  }

  /** Dropping the last description drops the last key press. */
  lemma GenrePressesPrefix(descriptions: seq<string>)
    requires |descriptions| > 0
    ensures GenrePresses(descriptions)[..|descriptions| - 1] == GenrePresses(descriptions[..|descriptions| - 1])
    ensures GenrePresses(descriptions)[|descriptions| - 1] == KeyPress("Enter", descriptions[|descriptions| - 1])
  {
  }

  /** Extending a list by at most one element extends its first n elements by it only when
      there was room. */
  lemma TakeOneMore(c: seq<string>, x: seq<string>, n: nat)
    requires |x| <= 1
    ensures Take(c + x, n) == if |c| < n then Take(c, n) + x else Take(c, n)
  {
    if |c| < n {
      assert Take(c, n) == c;
    } else {
      assert (c + x)[..n] == c[..n];
    }
  }

  /** The chip list without its i-th chip: the chips before i, then those after it. */
  function RemoveAt(chips: seq<Chip>, i: nat): (r: seq<Chip>)
    requires i < |chips|
    ensures |r| == |chips| - 1
    ensures forall j :: 0 <= j < i ==> r[j] == chips[j]
    ensures forall j :: i <= j < |r| ==> r[j] == chips[j + 1]
  {
    chips[..i] + chips[i + 1..]
  }

  /** The trimmed textContent of every chip, in display order. */
  function ChipTexts(chips: seq<Chip>): (texts: seq<string>)
    ensures |texts| == |chips|
  {
    seq(|chips|, i requires 0 <= i < |chips| => Trim(chips[i].TextContent()))
  }

  /** The tags field of a submission: the chips' trimmed texts joined with ", ". */
  function Serialise(chips: seq<Chip>): (tags: string)
    ensures |chips| == 0 <==> tags == ""
  {
    if |chips| == 0 then Join([], ", ")
    else
      MarkSurvivesTrim(chips[0]);
      Join(ChipTexts(chips), ", ")
  }

  /** A chip's text is its label followed by the delete button's "X", so trimming never
      empties it: "X" is not white space. */
  lemma MarkSurvivesTrim(c: Chip)
    ensures var t := c.TextContent(); |t| == |c.value| + 1 && t[..|c.value|] == c.value && t[|c.value|] == 'X'
    ensures Trim(c.TextContent()) != ""
  {
    var t := c.TextContent();
    assert t[|t| - 1] == 'X';
  }

  /** A chip's text is its label followed by "X", whatever the label, once the label is trimmed. */
  lemma ChipTextOfTrimmed(c: Chip)
    requires IsTrimmed(c.value)
    ensures Trim(c.TextContent()) == c.value + DELETE_LABEL
    ensures IsTrimmed(c.value + DELETE_LABEL)
  {
    TrimTrimmed(c.value + DELETE_LABEL);
  }

  /** Each chip's label followed by its delete button's "X". */
  function Marked(chips: seq<Chip>): (texts: seq<string>)
    ensures |texts| == |chips|
  {
    seq(|chips|, i requires 0 <= i < |chips| => chips[i].value + DELETE_LABEL)
  }

  /** Once every label is trimmed, each chip text is its label followed by "X". */
  lemma ChipTextsOfTrimmed(chips: seq<Chip>)
    requires forall i :: 0 <= i < |chips| ==> IsTrimmed(chips[i].value)
    ensures ChipTexts(chips) == Marked(chips)
  {
    forall i | 0 <= i < |chips| ensures ChipTexts(chips)[i] == Marked(chips)[i] {
      ChipTextOfTrimmed(chips[i]);
    }
  }

  /** With trimmed labels the tags field is each label followed by "X", joined with ", ":
      chips a, b, c are sent as "aX, bX, cX", not "a, b, c". */
  lemma SerialiseMarked(chips: seq<Chip>)
    requires forall i :: 0 <= i < |chips| ==> IsTrimmed(chips[i].value)
    ensures Serialise(chips) == Join(Marked(chips), ", ")
  {
    ChipTextsOfTrimmed(chips);
  }

  predicate WellFormedChip(c: Chip) {
    c.value != "" && IsTrimmed(c.value) && c.color in PALETTE
  }

  lemma AppendWellFormed(chips: seq<Chip>, c: Chip)
    requires WellFormedChip(c)
    ensures Values(chips + [c]) == Values(chips) + [c.value]
    ensures (forall i :: 0 <= i < |chips| ==> WellFormedChip(chips[i])) ==>
              forall i :: 0 <= i < |chips + [c]| ==> WellFormedChip((chips + [c])[i])
  {
    assert Values(chips + [c]) == Values(chips) + [c.value];
  }

  /** From (c0, d0, p0) to (c1, d1, p1) the chip list only grew, by chips of palette
      colours, and the input either kept its state or became disabled and full. */
  predicate Grew(c0: seq<Chip>, d0: bool, p0: string, c1: seq<Chip>, d1: bool, p1: string) {
    && |c0| <= |c1| && c1[..|c0|] == c0
    && (forall i :: |c0| <= i < |c1| ==> c1[i].color in PALETTE)
    && ((d1 == d0 && p1 == p0) || (d1 && p1 == FULL_PLACEHOLDER))
  }

  /** Growing twice is growing. */
  lemma GrewTrans(c0: seq<Chip>, d0: bool, p0: string, c1: seq<Chip>, d1: bool, p1: string,
                  c2: seq<Chip>, d2: bool, p2: string)
    requires Grew(c0, d0, p0, c1, d1, p1) && Grew(c1, d1, p1, c2, d2, p2)
    ensures Grew(c0, d0, p0, c2, d2, p2)
  {
    assert c2[..|c0|] == c2[..|c1|][..|c0|];
    forall i | |c0| <= i < |c2| ensures c2[i].color in PALETTE {
      if i < |c1| {
        assert c2[..|c1|][i] == c2[i];
      }
    }
  }

  /** A genre press at capacity leaves its description in the (disabled) input. */
  lemma GenreInputAtCapacity(input: string, labels: seq<string>, d: string)
    requires |labels| >= MAX_TAGS
    ensures GenreInput(input, labels, [d]) == d
  {
    assert [d][..0] == [];
  }

  /** What the input holds after the genre loop: its old value when there was no genre,
      empty when the last press appended, and the last description otherwise. */
  function GenreInput(input: string, labels: seq<string>, descriptions: seq<string>): string {
    if |descriptions| == 0 then input
    else
      var last := descriptions[|descriptions| - 1];
      var before := CommitMany(labels, GenrePresses(descriptions[..|descriptions| - 1]));
      if Appends(|before|, "Enter", last) then "" else last
  }

  /** The tag input and the chip container it fills. */
  class TagInput {
    var chips: seq<Chip>
    var inputValue: string
    var disabled: bool
    var placeholder: string

    /** At most MAX_TAGS chips, each with a trimmed non-empty label and a palette colour;
        the input is disabled, with the capacity message, exactly when the list is full. */
    ghost predicate Valid()
      reads this
    {
      && |chips| <= MAX_TAGS
      && (disabled <==> |chips| == MAX_TAGS)
      && placeholder == (if disabled then FULL_PLACEHOLDER else OPEN_PLACEHOLDER)
      && forall i :: 0 <= i < |chips| ==> WellFormedChip(chips[i])
    }

    /** The chip labels, in display order. */
    function Labels(): seq<string>
      reads this
    {
      Values(chips)
    }

    /** The empty widget of a freshly loaded form. */
    constructor ()
      ensures Valid()
      ensures chips == [] && inputValue == "" && !disabled && placeholder == OPEN_PLACEHOLDER
    {
      chips := [];
      inputValue := "";
      disabled := false;
      placeholder := OPEN_PLACEHOLDER;
    }

    /** Writing into the input (typing, or the genre auto-population). */
    method SetValue(v: string)
      modifies this`inputValue
      ensures inputValue == v
    {
      inputValue := v;
    }

    /** handleTagInput: the keydown handler, random being the draw for the new chip's colour. */
    method Commit(key: string, random: real)
      requires 0.0 <= random < 1.0
      modifies this
      ensures !IsCommitKey(key) || Trim(old(inputValue)) == "" ==>
                chips == old(chips) && inputValue == old(inputValue)
                && disabled == old(disabled) && placeholder == old(placeholder)
      ensures IsCommitKey(key) && Trim(old(inputValue)) != "" && old(|chips|) >= MAX_TAGS ==>
                chips == old(chips) && inputValue == old(inputValue)
                && disabled && placeholder == FULL_PLACEHOLDER
      ensures Appends(old(|chips|), key, old(inputValue)) ==>
                chips == old(chips) + [Chip(Trim(old(inputValue)), GetUniqueColor(random))]
                && inputValue == ""
                && if |chips| >= MAX_TAGS then disabled && placeholder == FULL_PLACEHOLDER
                   else disabled == old(disabled) && placeholder == old(placeholder)
      ensures Labels() == CommitLabels(old(Labels()), key, old(inputValue))
      ensures old(Valid()) ==> Valid()
    {
      var value := Trim(inputValue);
      if !IsCommitKey(key) || value == "" {
        // Any other key, or a blank input: nothing happens.
      } else if |chips| >= MAX_TAGS {
        disabled := true;
        placeholder := FULL_PLACEHOLDER;
      } else {
        var chip := Chip(value, GetUniqueColor(random));
        AppendWellFormed(chips, chip);
        chips := chips + [chip];
        inputValue := "";
        if |chips| >= MAX_TAGS {
          disabled := true;
          placeholder := FULL_PLACEHOLDER;
        }
      }
    }

    /** The delete button of chip i: the chip goes, and the live count of the remaining
        chips decides whether the input is re-enabled. */
    method Remove(i: nat)
      requires i < |chips|
      modifies this
      ensures chips == RemoveAt(old(chips), i)
      ensures inputValue == old(inputValue)
      ensures |chips| < MAX_TAGS ==> !disabled && placeholder == OPEN_PLACEHOLDER
      ensures |chips| >= MAX_TAGS ==> disabled == old(disabled) && placeholder == old(placeholder)
      ensures old(Valid()) ==> Valid() && !disabled && placeholder == OPEN_PLACEHOLDER
    {
      chips := RemoveAt(chips, i);
      if |chips| < MAX_TAGS {
        disabled := false;
        placeholder := OPEN_PLACEHOLDER;
      }
    }

    /** One genre of handleGameSelection: d is written into the input and the keydown
        handler runs as if Enter were pressed; random is the colour draw. When the press
        does not append, d stays in the input. */
    method EnterGenre(d: string, random: real)
      requires 0.0 <= random < 1.0
      modifies this
      ensures Labels() == CommitLabels(old(Labels()), "Enter", d)
      ensures inputValue == if Appends(old(|chips|), "Enter", d) then "" else d
      ensures Grew(old(chips), old(disabled), old(placeholder), chips, disabled, placeholder)
      ensures old(Valid()) ==> Valid()
    {
      SetValue(d);
      Commit("Enter", random);
    }

    /** The genre loop of handleGameSelection: each description is written into the input
        and committed as if Enter were pressed; randoms[k] is the colour draw for the k-th.
        The chips only grow, by chips of palette colours, the input only ever goes from
        enabled to disabled, and it ends as GenreInput says. */
    method PopulateGenres(descriptions: seq<string>, randoms: seq<real>)
      requires |randoms| == |descriptions|
      requires forall k :: 0 <= k < |randoms| ==> 0.0 <= randoms[k] < 1.0
      modifies this
      ensures Labels() == CommitMany(old(Labels()), GenrePresses(descriptions))
      ensures old(|chips|) <= MAX_TAGS ==>
                Labels() == old(Labels()) + Take(Committable(descriptions), MAX_TAGS - old(|chips|))
      ensures Grew(old(chips), old(disabled), old(placeholder), chips, disabled, placeholder)
      ensures inputValue == GenreInput(old(inputValue), old(Labels()), descriptions)
      ensures old(Valid()) ==> Valid()
    {
      var k := 0;
      while k < |descriptions|
        invariant 0 <= k <= |descriptions|
        invariant Labels() == CommitMany(old(Labels()), GenrePresses(descriptions[..k]))
        invariant Grew(old(chips), old(disabled), old(placeholder), chips, disabled, placeholder)
        invariant inputValue == GenreInput(old(inputValue), old(Labels()), descriptions[..k])
        invariant old(Valid()) ==> Valid()
      {
        ghost var c1, d1, p1 := chips, disabled, placeholder;
        GenrePressesPrefix(descriptions[..k + 1]);
        assert descriptions[..k + 1][..k] == descriptions[..k];
        EnterGenre(descriptions[k], randoms[k]);
        GrewTrans(old(chips), old(disabled), old(placeholder), c1, d1, p1, chips, disabled, placeholder);
        k := k + 1;
      }
      assert descriptions[..k] == descriptions;
      if old(|chips|) <= MAX_TAGS {
        GenrePopulation(old(Labels()), descriptions);
      }
    }

    /** The tags field handleFormSubmit sends. */
    function FormTags(): (tags: string)
      reads this
      ensures tags == "" <==> chips == []
    {
      Serialise(chips)
    }

    /** In any reachable state the form sends each label followed by "X", joined with ", ". */
    lemma FormTagsOfValid()
      requires Valid()
      ensures FormTags() == Join(Marked(chips), ", ")
    {
      SerialiseMarked(chips);
    }
  }
}
