/**
 * The human-readable list of active gameplay modifiers shown for
 * `{modifiers}`: fixed labels appended in a fixed order, then trimmed of
 * spaces and commas at both ends.
 */
module Modifiers {
  import opened Strings

  datatype EnergyType = Bar | Battery

  datatype EnabledObstacleType = All | FullHeightOnly | NoObstacles

  /**
   * The modifier settings of one play. `isWithoutModifiers` is the game's own
   * verdict that nothing is modified. The song speed is a float in the game:
   * `songSpeedIsOne` says whether it equals 1.0 and `songSpeedText` is its
   * printed form.
   */
  datatype GameplayModifiers = GameplayModifiers(
    isWithoutModifiers: bool,
    noFailOn0Energy: bool,
    instaFail: bool,
    energyType: EnergyType,
    disappearingArrows: bool,
    ghostNotes: bool,
    noBombs: bool,
    enabledObstacleType: EnabledObstacleType,
    noArrows: bool,
    failOnSaberClash: bool,
    strictAngles: bool,
    fastNotes: bool,
    smallCubes: bool,
    proMode: bool,
    zenMode: bool,
    songSpeedIsOne: bool,
    songSpeedText: string)

  /** The characters trimmed from both ends of the list. */
  const TrimChars: set<char> := {' ', ','}

  /** The label of a modifier when it is enabled, and nothing otherwise. */
  function Label(enabled: bool, text: string): string {
    if enabled then text else []
  }

  /** The labels appended before `Fast Notes`, in order. */
  function LeadingLabels(m: GameplayModifiers): string {
    Label(m.instaFail, "Instant Fail, ")
    + Label(m.energyType == Battery, "Battery Energy, ")
    + Label(m.disappearingArrows, "Disappearing Arrows, ")
    + Label(m.ghostNotes, "Ghost Notes, ")
    + Label(m.noBombs, "No Bombs, ")
    + Label(m.enabledObstacleType == NoObstacles, "No Walls, ")
    + Label(m.enabledObstacleType == FullHeightOnly, "No Walls(FullHeightOnly), ")
    + Label(m.noArrows, "No Arrows, ")
    + Label(m.failOnSaberClash, "Fail On Saber Clash, ")
    + Label(m.strictAngles, "Strict Angles, ")
  }

  /**
   * The enabled labels run together in the fixed order, before trimming.
   * `Fast Notes` is the one label without a `", "` separator.
   */
  function RawModifiers(m: GameplayModifiers): string {
    LeadingLabels(m)
    + Label(m.fastNotes, "Fast Notes")
    + Label(m.smallCubes, "Small Cubes, ")
    + Label(m.proMode, "Pro Mode, ")
    + Label(m.zenMode, "Zen Mode, ")
    + Label(!m.songSpeedIsOne, "Speed " + m.songSpeedText + "x")
  }

  /** The value substituted for `{modifiers}`. */
  function ModifiersText(m: GameplayModifiers): string {
    if m.isWithoutModifiers then [] else Trim(RawModifiers(m), TrimChars)
  }

  /**
   * Builds the list by appending one name per enabled modifier, then trims
   * it. The result never starts or ends with a space or a comma, and is empty
   * when the game reports no modifiers.
   */
  method BuildModifiersList(mods: GameplayModifiers) returns (modsList: string)
    ensures mods.isWithoutModifiers ==> modsList == []
    ensures modsList == [] || (modsList[0] !in TrimChars && modsList[|modsList| - 1] !in TrimChars)
    ensures modsList == ModifiersText(mods)
  {
    modsList := [];
    if !mods.isWithoutModifiers {
      modsList := modsList + Label(mods.instaFail, "Instant Fail, ");
      assert modsList == Label(mods.instaFail, "Instant Fail, ");
      modsList := modsList + Label(mods.energyType == Battery, "Battery Energy, ");
      modsList := modsList + Label(mods.disappearingArrows, "Disappearing Arrows, ");
      modsList := modsList + Label(mods.ghostNotes, "Ghost Notes, ");
      modsList := modsList + Label(mods.noBombs, "No Bombs, ");
      modsList := modsList + Label(mods.enabledObstacleType == NoObstacles, "No Walls, ");
      modsList := modsList + Label(mods.enabledObstacleType == FullHeightOnly, "No Walls(FullHeightOnly), ");
      modsList := modsList + Label(mods.noArrows, "No Arrows, ");
      modsList := modsList + Label(mods.failOnSaberClash, "Fail On Saber Clash, ");
      modsList := modsList + Label(mods.strictAngles, "Strict Angles, ");
      assert modsList == LeadingLabels(mods);
      modsList := modsList + Label(mods.fastNotes, "Fast Notes");
      modsList := modsList + Label(mods.smallCubes, "Small Cubes, ");
      modsList := modsList + Label(mods.proMode, "Pro Mode, ");
      modsList := modsList + Label(mods.zenMode, "Zen Mode, ");
      modsList := modsList + Label(!mods.songSpeedIsOne, "Speed " + mods.songSpeedText + "x");
      assert modsList == RawModifiers(mods);
      modsList := Trim(modsList, TrimChars);
    }
  }

  /** A name followed by its `", "` separator trims back to the name. */
  lemma TrimSeparator(name: string)
    requires name != [] && name[0] !in TrimChars && name[|name| - 1] !in TrimChars
    ensures Trim(name + ", ", TrimChars) == name
  {
    var s := name + ", ";
    var r := Trim(s, TrimChars);
    assert s[0] == name[0];
    assert LeadCount(s, TrimChars) == 0;
    assert s[|name|] == ',' && s[|name| + 1] == ' ';
    assert s[|name| - 1] == name[|name| - 1];
    assert |r| >= |name|;
    assert r != [] && r[|r| - 1] == s[|r| - 1];
    assert |r| == |name|;
    assert r == s[..|name|];
  }

  /** With only Pro Mode enabled, the list is exactly `Pro Mode`. */
  lemma OnlyProMode(m: GameplayModifiers)
    requires !m.isWithoutModifiers && m.proMode
    requires !m.instaFail && m.energyType == Bar && !m.disappearingArrows && !m.ghostNotes
    requires !m.noBombs && m.enabledObstacleType == All && !m.noArrows && !m.failOnSaberClash
    requires !m.strictAngles && !m.fastNotes && !m.smallCubes && !m.zenMode && m.songSpeedIsOne
    ensures ModifiersText(m) == "Pro Mode"
  {
    assert RawModifiers(m) == "Pro Mode" + ", ";
    TrimSeparator("Pro Mode");
  }

  /**
   * `Fast Notes` carries no separator, so whenever Small Cubes is enabled
   * too the two labels run together as `Fast NotesSmall Cubes`.
   */
  lemma FastNotesRunsIntoSmallCubes(m: GameplayModifiers)
    requires !m.isWithoutModifiers && m.fastNotes && m.smallCubes
    ensures Contains(ModifiersText(m), "Fast NotesSmall Cubes")
  {
    var after := RunInShape(m);
    OccursEmbedded(LeadingLabels(m), "Fast NotesSmall Cubes", after);
    TrimKeepsInterior(RawModifiers(m), TrimChars, "Fast NotesSmall Cubes", |LeadingLabels(m)|);
  }

  /** The raw list around the two labels that run together. */
  lemma RunInShape(m: GameplayModifiers) returns (after: string)
    requires m.fastNotes && m.smallCubes
    ensures RawModifiers(m) == LeadingLabels(m) + "Fast NotesSmall Cubes" + after
  {
    var p, z, sp := Label(m.proMode, "Pro Mode, "), Label(m.zenMode, "Zen Mode, "),
      Label(!m.songSpeedIsOne, "Speed " + m.songSpeedText + "x");
    var lead := LeadingLabels(m);
    assert RawModifiers(m) == lead + "Fast Notes" + "Small Cubes, " + p + z + sp;
    RunInLiteral();
    Regroup(lead, "Fast Notes", "Small Cubes, ", p, z, sp);
    after := p + z + sp;
    assert RawModifiers(m) == lead + ("Fast NotesSmall Cubes" + ", ") + after;
    Regroup3(lead, "Fast NotesSmall Cubes", ", ", after);
    after := ", " + after;
  }

  // Proof helpers for RunInShape: stated on their own, these regroupings keep
  // the solver from searching through every way of associating the labels.

  lemma RunInLiteral()
    ensures "Fast Notes" + "Small Cubes, " == "Fast NotesSmall Cubes" + ", "
  {
  }

  lemma Regroup3(a: string, b: string, c: string, d: string)
    ensures a + (b + c) + d == a + b + (c + d)
  {
  }

  lemma Regroup(a: string, b: string, c: string, d: string, e: string, f: string)
    ensures a + b + c + d + e + f == a + (b + c) + (d + e + f)
  {
  }
}
