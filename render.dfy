/**
 * The render driver of `GameCoreLoaded`: split the template once, then run
 * `ReplaceKeyword` for each keyword in a fixed order, every call reusing the
 * pieces of the original template. `star` runs only while the text still
 * holds a literal `{star}`.
 */
module Render {
  import opened Wrappers
  import opened Strings
  import opened Keywords
  import opened StarTable
  import opened Modifiers

  /**
   * What a render reads about the song being played. Numbers and
   * float-derived texts (BPM, counts, note jump offset, the practice-mode
   * suffix of the game mode) arrive already printed.
   */
  datatype Level = Level(
    levelID: string,
    songName: string,
    songSubName: string,
    songAuthorName: string,
    levelAuthorName: string,
    gameplayModeText: string,
    difficultyName: string,
    beatsPerMinuteText: string,
    notesCountText: string,
    obstaclesCountText: string,
    noteJumpOffsetText: string)

  /** One keyword with the value it is to be replaced by. */
  datatype Step = Step(keyword: string, value: string)

  predicate ValidSteps(steps: seq<Step>) {
    forall i :: 0 <= i < |steps| ==> steps[i].keyword != []
  }

  /** Runs the steps in order, each against the same template pieces. */
  function Fold(text: string, pieces: seq<string>, steps: seq<Step>): string
    requires ValidSteps(steps)
    decreases |steps|
  {
    if steps == [] then text
    else Fold(Substitute(steps[0].keyword, steps[0].value, pieces, text), pieces, steps[1..])
  }

  /** The literal whose presence lets the star rating be looked up. */
  const StarPlaceholder: string := "{star}"

  /** The steps before the star rating. */
  function SongSteps(level: Level): (r: seq<Step>)
    ensures ValidSteps(r)
  {
    [ Step("songName", level.songName),
      Step("songSubName", level.songSubName),
      Step("authorName", level.songAuthorName),
      Step("levelAuthorName", level.levelAuthorName),
      Step("gamemode", level.gameplayModeText),
      Step("difficulty", level.difficultyName) ]
  }

  /** The value of `isNoFail`. */
  function NoFailText(mods: GameplayModifiers): string {
    if mods.noFailOn0Energy then "No Fail" else []
  }

  /** The steps after the star rating. */
  function SettingSteps(level: Level, noFail: string, modifiers: string): (r: seq<Step>)
    ensures ValidSteps(r)
  {
    [ Step("isNoFail", noFail),
      Step("modifiers", modifiers),
      Step("beatsPerMinute", level.beatsPerMinuteText),
      Step("notesCount", level.notesCountText),
      Step("obstaclesCount", level.obstaclesCountText),
      Step("noteJumpStartBeatOffset", level.noteJumpOffsetText) ]
  }

  /** The text one render writes to the status file. */
  function RenderText(template: string, level: Level, mods: GameplayModifiers, table: Option<seq<string>>): string {
    var keywords := Split(template, Braces);
    var afterSong := Fold(template, keywords, SongSteps(level));
    var afterStar :=
      if Contains(afterSong, StarPlaceholder)
      then Substitute("star", StarRating(table, level.levelID, level.difficultyName), keywords, afterSong)
      else afterSong;
    Fold(afterStar, keywords, SettingSteps(level, NoFailText(mods), ModifiersText(mods)))
  }

  /** Running the steps from index `k` on is running step `k`, then the rest. */
  lemma FoldAt(text: string, pieces: seq<string>, steps: seq<Step>, k: nat)
    requires ValidSteps(steps) && k < |steps|
    ensures steps[k].keyword != []
    ensures Fold(text, pieces, steps[k..])
      == Fold(Substitute(steps[k].keyword, steps[k].value, pieces, text), pieces, steps[k + 1..])
  {
    assert steps[k..][1..] == steps[k + 1..];
  }

  /** Steps whose keywords no piece contains leave the text as it is. */
  lemma {:induction false} FoldSkipsAbsent(text: string, pieces: seq<string>, steps: seq<Step>)
    requires ValidSteps(steps)
    requires forall i :: 0 <= i < |steps| ==> !AnyContains(pieces, steps[i].keyword)
    ensures Fold(text, pieces, steps) == text
    decreases |steps|
  {
    if steps != [] {
      FoldSkipsAbsent(text, pieces, steps[1..]);
    }
  }

  /** Steps whose keywords the template never mentions leave it as it is. */
  lemma AbsentStepKeywords(template: string, steps: seq<Step>)
    requires ValidSteps(steps)
    requires forall i :: 0 <= i < |steps| ==> !Contains(template, steps[i].keyword)
    ensures Fold(template, Split(template, Braces), steps) == template
  {
    forall i | 0 <= i < |steps|
      ensures !AnyContains(Split(template, Braces), steps[i].keyword)
    {
      AbsentKeyword(steps[i].keyword, [], template, template);
    }
    FoldSkipsAbsent(template, Split(template, Braces), steps);
  }

  /** The song steps leave a template alone that mentions none of their keywords. */
  lemma SongStepsAbsent(template: string, level: Level)
    requires !Contains(template, "songName") && !Contains(template, "songSubName")
    requires !Contains(template, "authorName") && !Contains(template, "levelAuthorName")
    requires !Contains(template, "gamemode") && !Contains(template, "difficulty")
    ensures Fold(template, Split(template, Braces), SongSteps(level)) == template
  {
    AbsentStepKeywords(template, SongSteps(level));
  }

  /** The setting steps leave a template alone that mentions none of their keywords. */
  lemma SettingStepsAbsent(template: string, level: Level, noFail: string, modifiers: string)
    requires !Contains(template, "isNoFail") && !Contains(template, "modifiers")
    requires !Contains(template, "beatsPerMinute") && !Contains(template, "notesCount")
    requires !Contains(template, "obstaclesCount") && !Contains(template, "noteJumpStartBeatOffset")
    ensures Fold(template, Split(template, Braces), SettingSteps(level, noFail, modifiers)) == template
  {
    AbsentStepKeywords(template, SettingSteps(level, noFail, modifiers));
  }

  /** The guarded `star` step leaves any text alone when the template never mentions `star`. */
  lemma StarStepAbsent(template: string, text: string, star: string)
    requires !Contains(template, "star")
    ensures (if Contains(text, StarPlaceholder) then Substitute("star", star, Split(template, Braces), text) else text) == text
  {
    AbsentKeyword("star", star, template, text);
  }

  /**
   * A template that mentions none of the render keywords, not even inside
   * other words, is written out exactly as it is, whatever the level, the
   * modifiers and the star table.
   */
  lemma NoKeywordsNoChange(template: string, level: Level, mods: GameplayModifiers, table: Option<seq<string>>)
    requires !Contains(template, "songName") && !Contains(template, "songSubName")
    requires !Contains(template, "authorName") && !Contains(template, "levelAuthorName")
    requires !Contains(template, "gamemode") && !Contains(template, "difficulty")
    requires !Contains(template, "star")
    requires !Contains(template, "isNoFail") && !Contains(template, "modifiers")
    requires !Contains(template, "beatsPerMinute") && !Contains(template, "notesCount")
    requires !Contains(template, "obstaclesCount") && !Contains(template, "noteJumpStartBeatOffset")
    ensures RenderText(template, level, mods, table) == template
  {
    SongStepsAbsent(template, level);
    StarStepAbsent(template, template, StarRating(table, level.levelID, level.difficultyName));
    SettingStepsAbsent(template, level, NoFailText(mods), ModifiersText(mods));
  }

  /**
   * Every call tests the pieces of the original template, not the current
   * text: when the value put in for `{k1}` is itself a placeholder `{k2}`,
   * a later step for `k2` finds no piece mentioning `k2` and leaves the
   * placeholder standing.
   */
  lemma InsertedPlaceholderStays(k1: string, k2: string, v2: string)
    requires k1 != [] && k2 != [] && DelimiterFree(k1, Braces) && !Contains(k1, k2)
    ensures var t := Braced(k1);
      Fold(t, Split(t, Braces), [Step(k1, Braced(k2)), Step(k2, v2)]) == Braced(k2)
  {
    var t := Braced(k1);
    var steps := [Step(k1, Braced(k2)), Step(k2, v2)];
    var empty: string := [];
    SplitSingleSpan(k1);
    PlainSpan(k1, Braced(k2));
    assert !Contains(empty, k2);
    var pieces := [empty, k1, empty];
    assert !AnyContains(pieces, k2);
    var first := Substitute(k1, Braced(k2), pieces, t);
    assert first == Braced(k2);
    assert Substitute(k2, v2, pieces, first) == first;
    assert steps[1..] == [Step(k2, v2)] && steps[1..][1..] == [];
    assert Fold(t, pieces, steps) == Fold(first, pieces, steps[1..]);
    assert Fold(first, pieces, steps[1..]) == Fold(first, pieces, steps[1..][1..]);
  }

  /** The calls of `GameCoreLoaded` before the star guard, in source order. */
  method ReplaceSongKeywords(template: string, keywords: seq<string>, level: Level)
    returns (templateText: string)
    ensures templateText == Fold(template, keywords, SongSteps(level))
  {
    ghost var song := SongSteps(level);
    ghost var prev := template;
    assert song[0..] == song;
    templateText := ReplaceKeyword("songName", level.songName, keywords, template);
    assert Fold(template, keywords, song) == Fold(templateText, keywords, song[1..]) by { FoldAt(prev, keywords, song, 0); }
    prev := templateText;
    templateText := ReplaceKeyword("songSubName", level.songSubName, keywords, templateText);
    assert Fold(template, keywords, song) == Fold(templateText, keywords, song[2..]) by { FoldAt(prev, keywords, song, 1); }
    prev := templateText;
    templateText := ReplaceKeyword("authorName", level.songAuthorName, keywords, templateText);
    assert Fold(template, keywords, song) == Fold(templateText, keywords, song[3..]) by { FoldAt(prev, keywords, song, 2); }
    prev := templateText;
    templateText := ReplaceKeyword("levelAuthorName", level.levelAuthorName, keywords, templateText);
    assert Fold(template, keywords, song) == Fold(templateText, keywords, song[4..]) by { FoldAt(prev, keywords, song, 3); }
    prev := templateText;
    templateText := ReplaceKeyword("gamemode", level.gameplayModeText, keywords, templateText);
    assert Fold(template, keywords, song) == Fold(templateText, keywords, song[5..]) by { FoldAt(prev, keywords, song, 4); }
    prev := templateText;
    templateText := ReplaceKeyword("difficulty", level.difficultyName, keywords, templateText);
    assert Fold(template, keywords, song) == Fold(templateText, keywords, song[6..]) by { FoldAt(prev, keywords, song, 5); }
    assert song[6..] == [];
  }

  /** The calls of `GameCoreLoaded` after the star guard, in source order. */
  method ReplaceSettingKeywords(text: string, keywords: seq<string>, level: Level, noFail: string, modsList: string)
    returns (templateText: string)
    ensures templateText == Fold(text, keywords, SettingSteps(level, noFail, modsList))
  {
    ghost var settings := SettingSteps(level, noFail, modsList);
    ghost var prev := text;
    assert settings[0..] == settings;
    templateText := ReplaceKeyword("isNoFail", noFail, keywords, text);
    assert Fold(text, keywords, settings) == Fold(templateText, keywords, settings[1..]) by { FoldAt(prev, keywords, settings, 0); }
    prev := templateText;
    templateText := ReplaceKeyword("modifiers", modsList, keywords, templateText);
    assert Fold(text, keywords, settings) == Fold(templateText, keywords, settings[2..]) by { FoldAt(prev, keywords, settings, 1); }
    prev := templateText;
    templateText := ReplaceKeyword("beatsPerMinute", level.beatsPerMinuteText, keywords, templateText);
    assert Fold(text, keywords, settings) == Fold(templateText, keywords, settings[3..]) by { FoldAt(prev, keywords, settings, 2); }
    prev := templateText;
    templateText := ReplaceKeyword("notesCount", level.notesCountText, keywords, templateText);
    assert Fold(text, keywords, settings) == Fold(templateText, keywords, settings[4..]) by { FoldAt(prev, keywords, settings, 3); }
    prev := templateText;
    templateText := ReplaceKeyword("obstaclesCount", level.obstaclesCountText, keywords, templateText);
    assert Fold(text, keywords, settings) == Fold(templateText, keywords, settings[5..]) by { FoldAt(prev, keywords, settings, 4); }
    prev := templateText;
    templateText := ReplaceKeyword("noteJumpStartBeatOffset", level.noteJumpOffsetText, keywords, templateText);
    assert Fold(text, keywords, settings) == Fold(templateText, keywords, settings[6..]) by { FoldAt(prev, keywords, settings, 5); }
    assert settings[6..] == [];
  }

  /**
   * Renders the template for the level being played; `table` is the star
   * table's lines, or `None` when the file is missing. Returns the text the
   * plugin writes out. The template is split once, and the star table is
   * consulted only while the text holds `{star}`.
   */
  method GameCoreLoaded(template: string, level: Level, mods: GameplayModifiers, table: Option<seq<string>>)
    returns (templateText: string)
    ensures !Contains(Fold(template, Split(template, Braces), SongSteps(level)), StarPlaceholder)
      ==> templateText == RenderText(template, level, mods, None)
    ensures templateText == RenderText(template, level, mods, table)
  {
    var modsList := BuildModifiersList(mods);
    var keywords := Split(template, Braces);
    templateText := ReplaceSongKeywords(template, keywords, level);
    if Contains(templateText, StarPlaceholder) {
      var star := GetStarDifficulty(table, level.levelID, level.difficultyName);
      templateText := ReplaceKeyword("star", star, keywords, templateText);
    }
    templateText := ReplaceSettingKeywords(templateText, keywords, level, NoFailText(mods), modsList);
  }
}
