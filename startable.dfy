/**
 * The star-rating side table (`GetStarDifficulty`): rows `id,difficulty,rating`
 * cut at every comma, no quoting. The first row whose prefixed id and
 * difficulty both match gives the rating; otherwise the rating is `-`.
 */
module StarTable {
  import opened Wrappers
  import opened Strings

  /** The prefix the game puts before the id of a custom level. */
  const LevelPrefix: string := "custom_level_"

  /** The rating shown when the table is missing or has no matching row. */
  const NoRating: string := "-"

  /** The fields of one row, as `line.Split(',')` gives them. */
  function Fields(line: string): (r: seq<string>)
    ensures |r| >= 1
  {
    Split(line, {','})
  }

  /** A row of at least three fields whose prefixed id and difficulty match. */
  predicate RowMatches(line: string, levelID: string, difficulty: string) {
    var values := Fields(line);
    |values| >= 3 && LevelPrefix + values[0] == levelID && values[1] == difficulty
  }

  /** The index of the first matching row, if any. */
  function FirstMatch(lines: seq<string>, levelID: string, difficulty: string): (r: Option<nat>)
    ensures r.Some? ==> r.value < |lines| && RowMatches(lines[r.value], levelID, difficulty)
    ensures r.Some? ==> forall j :: 0 <= j < r.value ==> !RowMatches(lines[j], levelID, difficulty)
    ensures r.None? <==> forall j :: 0 <= j < |lines| ==> !RowMatches(lines[j], levelID, difficulty)
    decreases |lines|
  {
    if lines == [] then None
    else if RowMatches(lines[0], levelID, difficulty) then Some(0)
    else match FirstMatch(lines[1..], levelID, difficulty)
      case None => None
      case Some(i) => Some(i + 1)
  }

  /** The rating the lookup yields; `None` stands for a missing file. */
  function StarRating(table: Option<seq<string>>, levelID: string, difficulty: string): string {
    match table
    case None => NoRating
    case Some(lines) =>
      match FirstMatch(lines, levelID, difficulty)
      case None => NoRating
      case Some(i) => Fields(lines[i])[2]
  }

  /**
   * Reads the table row by row and returns at the first match. A missing file
   * and a table without a match both give `-`.
   */
  method GetStarDifficulty(table: Option<seq<string>>, levelID: string, difficulty: string)
    returns (r: string)
    ensures table.None? ==> r == NoRating
    ensures table.Some? ==>
      forall i :: (0 <= i < |table.value| && RowMatches(table.value[i], levelID, difficulty) &&
        (forall j :: 0 <= j < i ==> !RowMatches(table.value[j], levelID, difficulty))) ==>
        r == Fields(table.value[i])[2]
    ensures table.Some? && (forall i :: 0 <= i < |table.value| ==> !RowMatches(table.value[i], levelID, difficulty))
      ==> r == NoRating
    ensures r == StarRating(table, levelID, difficulty)
  {
    if table.None? {
      return NoRating;
    }
    var lines := table.value;
    var i := 0;
    while i < |lines|
      invariant 0 <= i <= |lines|
      invariant forall j :: 0 <= j < i ==> !RowMatches(lines[j], levelID, difficulty)
    {
      var values := Fields(lines[i]);
      if |values| < 3 {
        i := i + 1;
        continue;
      }
      if LevelPrefix + values[0] == levelID && values[1] == difficulty {
        return values[2];
      }
      i := i + 1;
    }
    return NoRating;
  }

  /** A row written `id,difficulty,rating` from comma-free fields. */
  function Row(id: string, difficulty: string, rating: string): string {
    id + [','] + difficulty + [','] + rating
  }

  /** Cutting such a row at its commas gives back its three fields. */
  lemma RowFields(id: string, difficulty: string, rating: string)
    requires DelimiterFree(id, {','}) && DelimiterFree(difficulty, {','}) && DelimiterFree(rating, {','})
    ensures Fields(Row(id, difficulty, rating)) == [id, difficulty, rating]
  {
    assert Row(id, difficulty, rating) == id + [','] + (difficulty + [','] + rating);
    SplitAtDelimiter(id, ',', difficulty + [','] + rating, {','});
    SplitAtDelimiter(difficulty, ',', rating, {','});
    SplitDelimiterFree(rating, {','});
  }

  /**
   * A table holding the one row `id,difficulty,rating` (the row
   * `abc123,Hard,7.5`, say): the custom level `id` on that difficulty gets
   * the rating, and on any other difficulty it gets `-`.
   */
  lemma OneRowLookup(id: string, difficulty: string, rating: string, other: string)
    requires DelimiterFree(id, {','}) && DelimiterFree(difficulty, {','}) && DelimiterFree(rating, {','})
    requires other != difficulty
    ensures StarRating(Some([Row(id, difficulty, rating)]), LevelPrefix + id, difficulty) == rating
    ensures StarRating(Some([Row(id, difficulty, rating)]), LevelPrefix + id, other) == NoRating
  {
    RowFields(id, difficulty, rating);
    assert RowMatches(Row(id, difficulty, rating), LevelPrefix + id, difficulty);
  }

  /**
   * A row with fewer than three fields is passed over whatever it holds: the
   * lookup ignores it as if it were not in the table.
   */
  lemma ShortRowSkipped(short: string, lines: seq<string>, levelID: string, difficulty: string)
    requires |Separators(short, {','})| < 2
    ensures StarRating(Some([short] + lines), levelID, difficulty) == StarRating(Some(lines), levelID, difficulty)
  {
    var all := [short] + lines;
    assert |Fields(short)| < 3;
    assert all[0] == short && all[1..] == lines;
    assert !RowMatches(all[0], levelID, difficulty);
    var m := FirstMatch(lines, levelID, difficulty);
    assert FirstMatch(all, levelID, difficulty) == if m.None? then None else Some(m.value + 1);
    if m.Some? {
      assert all[m.value + 1] == lines[m.value];
    }
  }
}
