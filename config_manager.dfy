/**
 * Application settings (ConfigManager.h / ConfigManager.cpp): the range
 * check, the defaults, the conversions between settings and a YAML document,
 * loading and saving, and the manager that holds the current settings.
 */
module Config {
  import opened Wrappers
  import opened Display
  import opened YamlDoc

  datatype AppConfig = AppConfig(
    display: DisplayConfig,
    timerDurationMinutes: int,
    autoRestart: bool,
    startMinimized: bool,
    configVersion: string)

  /** A default-constructed `AppConfig` (its member initialisers). */
  const DefaultAppConfig := AppConfig(
    display := DefaultDisplayConfig,
    timerDurationMinutes := 5,
    autoRestart := true,
    startMinimized := false,
    configVersion := "1.0")

  // ---------------------------------------------------------------- validation

  /** The checks of validateConfig, in the order it makes them. */
  datatype ConfigError =
    | InvalidTimerDuration
    | InvalidFontSize
    | InvalidTextColor
    | InvalidBackgroundColor
    | InvalidOpacity
    | InvalidWindowSize

  /** The position of a check in validateConfig. */
  function Rank(check: ConfigError): nat {
    match check
    case InvalidTimerDuration => 0
    case InvalidFontSize => 1
    case InvalidTextColor => 2
    case InvalidBackgroundColor => 3
    case InvalidOpacity => 4
    case InvalidWindowSize => 5
  }

  predicate InByteRange(x: int) {
    0 <= x <= 255
  }

  /** The range of each check, stated on its own. */
  predicate Passes(c: AppConfig, check: ConfigError) {
    match check
    case InvalidTimerDuration => 1 <= c.timerDurationMinutes <= 60
    case InvalidFontSize => 8 <= c.display.fontSize <= 72
    case InvalidTextColor =>
      InByteRange(c.display.textColor.r) && InByteRange(c.display.textColor.g) && InByteRange(c.display.textColor.b)
    case InvalidBackgroundColor =>
      InByteRange(c.display.backgroundColor.r) && InByteRange(c.display.backgroundColor.g) && InByteRange(c.display.backgroundColor.b)
    case InvalidOpacity => InByteRange(c.display.opacity)
    case InvalidWindowSize => c.display.windowWidth >= 50 && c.display.windowHeight >= 20
  }

  /** The lambda `validateColor`. */
  function ColorAccepted(color: Color): bool
  {
    !(color.r < 0 || color.r > 255 || color.g < 0 || color.g > 255 || color.b < 0 || color.b > 255)
  }

  /** The check that makes validateConfig return false: the first that fails; None when all pass. */
  function FirstViolation(c: AppConfig): (r: Option<ConfigError>)
    ensures r.Some? ==> !Passes(c, r.value)
    ensures r.Some? ==> forall check :: Rank(check) < Rank(r.value) ==> Passes(c, check)
    ensures r.None? <==> forall check :: Passes(c, check)
  {
    if c.timerDurationMinutes < 1 || c.timerDurationMinutes > 60 then Some(InvalidTimerDuration)
    else if c.display.fontSize < 8 || c.display.fontSize > 72 then Some(InvalidFontSize)
    else if !ColorAccepted(c.display.textColor) then Some(InvalidTextColor)
    else if !ColorAccepted(c.display.backgroundColor) then Some(InvalidBackgroundColor)
    else if c.display.opacity < 0 || c.display.opacity > 255 then Some(InvalidOpacity)
    else if c.display.windowWidth < 50 || c.display.windowHeight < 20 then Some(InvalidWindowSize)
    else None
  }

  predicate ValidateConfig(c: AppConfig): (ok: bool)
    ensures ok <==>
      && 1 <= c.timerDurationMinutes <= 60
      && 8 <= c.display.fontSize <= 72
      && InByteRange(c.display.textColor.r) && InByteRange(c.display.textColor.g) && InByteRange(c.display.textColor.b)
      && InByteRange(c.display.backgroundColor.r) && InByteRange(c.display.backgroundColor.g)
      && InByteRange(c.display.backgroundColor.b)
      && InByteRange(c.display.opacity)
      && c.display.windowWidth >= 50 && c.display.windowHeight >= 20
  {
    FirstViolation(c).None?
  }

  // ---------------------------------------------------------------- defaults

  function GetDefaultConfig(): (c: AppConfig)
    ensures c == DefaultAppConfig
    ensures ValidateConfig(c)
  {
    DefaultAppConfig.(
      timerDurationMinutes := 5,
      autoRestart := true,
      startMinimized := false,
      configVersion := "1.0",
      display := DefaultDisplayConfig)
  }

  /** Every default lies inside the validator's ranges. */
  lemma DefaultsAreInRange()
    ensures DefaultColor == Color(255, 255, 255) && ColorAccepted(DefaultColor)
    ensures DefaultDisplayConfig.textColor == Color(255, 255, 255) && ColorAccepted(DefaultDisplayConfig.textColor)
    ensures DefaultDisplayConfig.backgroundColor == Color(0, 0, 0) && ColorAccepted(DefaultDisplayConfig.backgroundColor)
    ensures 8 <= DefaultDisplayConfig.fontSize <= 72
    ensures DefaultDisplayConfig.windowWidth >= 50 && DefaultDisplayConfig.windowHeight >= 20
    ensures InByteRange(DefaultDisplayConfig.opacity)
    ensures DefaultDisplayConfig.isDraggable && !DefaultDisplayConfig.isLocked
    ensures ValidateConfig(DefaultAppConfig)
  {
  }

  // ---------------------------------------------------------------- YAML conversion

  const FontFamilyKey: Path := ["font", "family"]
  const FontSizeKey: Path := ["font", "size"]
  const FontBoldKey: Path := ["font", "bold"]
  const TextRedKey: Path := ["colors", "text", "r"]
  const TextGreenKey: Path := ["colors", "text", "g"]
  const TextBlueKey: Path := ["colors", "text", "b"]
  const BackgroundRedKey: Path := ["colors", "background", "r"]
  const BackgroundGreenKey: Path := ["colors", "background", "g"]
  const BackgroundBlueKey: Path := ["colors", "background", "b"]
  const WidthKey: Path := ["window", "width"]
  const HeightKey: Path := ["window", "height"]
  const OpacityKey: Path := ["window", "opacity"]
  const PositionXKey: Path := ["position", "x"]
  const PositionYKey: Path := ["position", "y"]
  const DraggableKey: Path := ["position", "draggable"]
  const LockedKey: Path := ["position", "locked"]

  const DisplayKeys: set<Path> := {
    FontFamilyKey, FontSizeKey, FontBoldKey,
    TextRedKey, TextGreenKey, TextBlueKey,
    BackgroundRedKey, BackgroundGreenKey, BackgroundBlueKey,
    WidthKey, HeightKey, OpacityKey,
    PositionXKey, PositionYKey, DraggableKey, LockedKey}

  /** A setting read from `k`: the stored value when the key is present, the default otherwise. */
  predicate IntFrom(node: Doc, k: Path, v: int, default: int) {
    if k in node then node[k] == IntValue(v) else v == default
  }

  predicate BoolFrom(node: Doc, k: Path, v: bool, default: bool) {
    if k in node then node[k] == BoolValue(v) else v == default
  }

  predicate StringFrom(node: Doc, k: Path, v: string, default: string) {
    if k in node then node[k] == StringValue(v) else v == default
  }

  /** `k` can be read with `as<int>()`: it is absent or an integer leaf, with no scalar above it. */
  predicate IntOrAbsent(node: Doc, k: Path) {
    Readable(node, k) && (k in node ==> node[k].IntValue?)
  }

  predicate BoolOrAbsent(node: Doc, k: Path) {
    Readable(node, k) && (k in node ==> node[k].BoolValue?)
  }

  predicate StringOrAbsent(node: Doc, k: Path) {
    Readable(node, k) && (k in node ==> node[k].StringValue?)
  }

  predicate FontKindsMatch(node: Doc) {
    StringOrAbsent(node, FontFamilyKey) && IntOrAbsent(node, FontSizeKey) && BoolOrAbsent(node, FontBoldKey)
  }

  predicate ColorKindsMatch(node: Doc, rk: Path, gk: Path, bk: Path) {
    IntOrAbsent(node, rk) && IntOrAbsent(node, gk) && IntOrAbsent(node, bk)
  }

  predicate WindowKindsMatch(node: Doc) {
    IntOrAbsent(node, WidthKey) && IntOrAbsent(node, HeightKey) && IntOrAbsent(node, OpacityKey)
  }

  predicate PositionKindsMatch(node: Doc) {
    && IntOrAbsent(node, PositionXKey) && IntOrAbsent(node, PositionYKey)
    && BoolOrAbsent(node, DraggableKey) && BoolOrAbsent(node, LockedKey)
  }

  /** Every present key holds a value of the kind its setting has. */
  predicate KindsMatch(node: Doc) {
    && FontKindsMatch(node)
    && ColorKindsMatch(node, TextRedKey, TextGreenKey, TextBlueKey)
    && ColorKindsMatch(node, BackgroundRedKey, BackgroundGreenKey, BackgroundBlueKey)
    && WindowKindsMatch(node)
    && PositionKindsMatch(node)
  }

  predicate FontReadsAs(node: Doc, family: string, size: int, bold: bool) {
    var e := DefaultDisplayConfig;
    && StringFrom(node, FontFamilyKey, family, e.fontFamily)
    && IntFrom(node, FontSizeKey, size, e.fontSize)
    && BoolFrom(node, FontBoldKey, bold, e.isBold)
  }

  predicate ColorReadsAs(node: Doc, rk: Path, gk: Path, bk: Path, c: Color, default: Color) {
    IntFrom(node, rk, c.r, default.r) && IntFrom(node, gk, c.g, default.g) && IntFrom(node, bk, c.b, default.b)
  }

  predicate WindowReadsAs(node: Doc, width: int, height: int, opacity: int) {
    var e := DefaultDisplayConfig;
    && IntFrom(node, WidthKey, width, e.windowWidth)
    && IntFrom(node, HeightKey, height, e.windowHeight)
    && IntFrom(node, OpacityKey, opacity, e.opacity)
  }

  predicate PositionReadsAs(node: Doc, x: int, y: int, draggable: bool, locked: bool) {
    var e := DefaultDisplayConfig;
    && IntFrom(node, PositionXKey, x, e.positionX)
    && IntFrom(node, PositionYKey, y, e.positionY)
    && BoolFrom(node, DraggableKey, draggable, e.isDraggable)
    && BoolFrom(node, LockedKey, locked, e.isLocked)
  }

  /** Every setting of `d` is read from its key of `node`, falling back to `DisplayConfig{}`. */
  predicate ReadsAs(node: Doc, d: DisplayConfig) {
    var e := DefaultDisplayConfig;
    && FontReadsAs(node, d.fontFamily, d.fontSize, d.isBold)
    && ColorReadsAs(node, TextRedKey, TextGreenKey, TextBlueKey, d.textColor, e.textColor)
    && ColorReadsAs(node, BackgroundRedKey, BackgroundGreenKey, BackgroundBlueKey, d.backgroundColor, e.backgroundColor)
    && WindowReadsAs(node, d.windowWidth, d.windowHeight, d.opacity)
    && PositionReadsAs(node, d.positionX, d.positionY, d.isDraggable, d.isLocked)
  }

  /** The `font` section. */
  function ReadFont(node: Doc): (r: Option<(string, int, bool)>)
    ensures r.Some? <==> FontKindsMatch(node)
    ensures r.Some? ==> FontReadsAs(node, r.value.0, r.value.1, r.value.2)
  {
    var e := DefaultDisplayConfig;
    var family :- ReadString(node, FontFamilyKey, e.fontFamily);
    var size :- ReadInt(node, FontSizeKey, e.fontSize);
    var bold :- ReadBool(node, FontBoldKey, e.isBold);
    Some((family, size, bold))
  }

  /** One colour of the `colors` section. */
  function ReadColor(node: Doc, rk: Path, gk: Path, bk: Path, current: Color): (r: Option<Color>)
    ensures r.Some? <==> ColorKindsMatch(node, rk, gk, bk)
    ensures r.Some? ==> ColorReadsAs(node, rk, gk, bk, r.value, current)
  {
    var red :- ReadInt(node, rk, current.r);
    var green :- ReadInt(node, gk, current.g);
    var blue :- ReadInt(node, bk, current.b);
    Some(Color(red, green, blue))
  }

  /** The `window` section. */
  function ReadWindow(node: Doc): (r: Option<(int, int, int)>)
    ensures r.Some? <==> WindowKindsMatch(node)
    ensures r.Some? ==> WindowReadsAs(node, r.value.0, r.value.1, r.value.2)
  {
    var e := DefaultDisplayConfig;
    var width :- ReadInt(node, WidthKey, e.windowWidth);
    var height :- ReadInt(node, HeightKey, e.windowHeight);
    var opacity :- ReadInt(node, OpacityKey, e.opacity);
    Some((width, height, opacity))
  }

  /** The `position` section. */
  function ReadPosition(node: Doc): (r: Option<(int, int, bool, bool)>)
    ensures r.Some? <==> PositionKindsMatch(node)
    ensures r.Some? ==> PositionReadsAs(node, r.value.0, r.value.1, r.value.2, r.value.3)
  {
    var e := DefaultDisplayConfig;
    var x :- ReadInt(node, PositionXKey, e.positionX);
    var y :- ReadInt(node, PositionYKey, e.positionY);
    var draggable :- ReadBool(node, DraggableKey, e.isDraggable);
    var locked :- ReadBool(node, LockedKey, e.isLocked);
    Some((x, y, draggable, locked))
  }

  /**
   * yamlToDisplayConfig: start from `DisplayConfig{}` and take every key that
   * is present. A present value of the wrong kind makes the conversion throw.
   */
  function YamlToDisplayConfig(node: Doc): (r: Option<DisplayConfig>)
    ensures r.Some? <==> KindsMatch(node)
    ensures r.Some? ==> ReadsAs(node, r.value)
  {
    var e := DefaultDisplayConfig;
    var font :- ReadFont(node);
    var text :- ReadColor(node, TextRedKey, TextGreenKey, TextBlueKey, e.textColor);
    var background :- ReadColor(node, BackgroundRedKey, BackgroundGreenKey, BackgroundBlueKey, e.backgroundColor);
    var window :- ReadWindow(node);
    var position :- ReadPosition(node);
    Some(DisplayConfig(
      fontFamily := font.0, fontSize := font.1, isBold := font.2,
      textColor := text, backgroundColor := background,
      windowWidth := window.0, windowHeight := window.1, opacity := window.2,
      positionX := position.0, positionY := position.1,
      isDraggable := position.2, isLocked := position.3))
  }

  /** displayConfigToYaml: one leaf per setting, under exactly the keys that are read back. */
  function DisplayConfigToYaml(d: DisplayConfig): (node: Doc)
    ensures node.Keys == DisplayKeys
  {
    map[
      FontFamilyKey := StringValue(d.fontFamily),
      FontSizeKey := IntValue(d.fontSize),
      FontBoldKey := BoolValue(d.isBold),
      TextRedKey := IntValue(d.textColor.r),
      TextGreenKey := IntValue(d.textColor.g),
      TextBlueKey := IntValue(d.textColor.b),
      BackgroundRedKey := IntValue(d.backgroundColor.r),
      BackgroundGreenKey := IntValue(d.backgroundColor.g),
      BackgroundBlueKey := IntValue(d.backgroundColor.b),
      WidthKey := IntValue(d.windowWidth),
      HeightKey := IntValue(d.windowHeight),
      OpacityKey := IntValue(d.opacity),
      PositionXKey := IntValue(d.positionX),
      PositionYKey := IntValue(d.positionY),
      DraggableKey := BoolValue(d.isDraggable),
      LockedKey := BoolValue(d.isLocked)]
  }

  /** The shape of every key of a display section: two levels down, or three under `colors`. */
  predicate DisplayShaped(p: Path) {
    (|p| == 3 && p[0] == "colors") || (|p| == 2 && p[0] != "colors")
  }

  lemma DisplayYamlShaped(d: DisplayConfig)
    ensures forall p :: p in DisplayConfigToYaml(d) ==> DisplayShaped(p)
  {
  }

  /** In a section whose keys all have that shape, no key lies above another, so each can be read. */
  lemma ShapedIsReadable(node: Doc, k: Path)
    requires forall p :: p in node ==> DisplayShaped(p)
    requires DisplayShaped(k)
    ensures Readable(node, k)
  {
  }

  /** Each key of the written section can be read. */
  lemma WrittenKeyReadable(d: DisplayConfig, k: Path)
    requires k in DisplayKeys
    ensures Readable(DisplayConfigToYaml(d), k)
  {
    DisplayYamlShaped(d);
    ShapedIsReadable(DisplayConfigToYaml(d), k);
  }

  /** A readable integer leaf is read as its value, whatever the default. */
  lemma IntLeaf(node: Doc, k: Path, v: int)
    requires Readable(node, k) && k in node && node[k] == IntValue(v)
    ensures IntOrAbsent(node, k) && forall default :: IntFrom(node, k, v, default)
  {
  }

  lemma BoolLeaf(node: Doc, k: Path, v: bool)
    requires Readable(node, k) && k in node && node[k] == BoolValue(v)
    ensures BoolOrAbsent(node, k) && forall default :: BoolFrom(node, k, v, default)
  {
  }

  lemma StringLeaf(node: Doc, k: Path, v: string)
    requires Readable(node, k) && k in node && node[k] == StringValue(v)
    ensures StringOrAbsent(node, k) && forall default :: StringFrom(node, k, v, default)
  {
  }

  lemma FontYamlReads(d: DisplayConfig)
    ensures FontKindsMatch(DisplayConfigToYaml(d))
    ensures FontReadsAs(DisplayConfigToYaml(d), d.fontFamily, d.fontSize, d.isBold)
  {
    var node := DisplayConfigToYaml(d);
    assert FontFamilyKey in node && node[FontFamilyKey] == StringValue(d.fontFamily);
    assert FontSizeKey in node && node[FontSizeKey] == IntValue(d.fontSize);
    assert FontBoldKey in node && node[FontBoldKey] == BoolValue(d.isBold);
    WrittenKeyReadable(d, FontFamilyKey);
    StringLeaf(node, FontFamilyKey, d.fontFamily);
    WrittenKeyReadable(d, FontSizeKey);
    IntLeaf(node, FontSizeKey, d.fontSize);
    WrittenKeyReadable(d, FontBoldKey);
    BoolLeaf(node, FontBoldKey, d.isBold);
  }

  lemma ColorYamlReads(d: DisplayConfig)
    ensures ColorKindsMatch(DisplayConfigToYaml(d), TextRedKey, TextGreenKey, TextBlueKey)
    ensures ColorKindsMatch(DisplayConfigToYaml(d), BackgroundRedKey, BackgroundGreenKey, BackgroundBlueKey)
    ensures ColorReadsAs(DisplayConfigToYaml(d), TextRedKey, TextGreenKey, TextBlueKey, d.textColor, DefaultColor)
    ensures ColorReadsAs(DisplayConfigToYaml(d), BackgroundRedKey, BackgroundGreenKey, BackgroundBlueKey,
                         d.backgroundColor, DefaultDisplayConfig.backgroundColor)
  {
    var node := DisplayConfigToYaml(d);
    assert TextRedKey in node && node[TextRedKey] == IntValue(d.textColor.r);
    assert TextGreenKey in node && node[TextGreenKey] == IntValue(d.textColor.g);
    assert TextBlueKey in node && node[TextBlueKey] == IntValue(d.textColor.b);
    assert BackgroundRedKey in node && node[BackgroundRedKey] == IntValue(d.backgroundColor.r);
    assert BackgroundGreenKey in node && node[BackgroundGreenKey] == IntValue(d.backgroundColor.g);
    assert BackgroundBlueKey in node && node[BackgroundBlueKey] == IntValue(d.backgroundColor.b);
    WrittenKeyReadable(d, TextRedKey);
    IntLeaf(node, TextRedKey, d.textColor.r);
    WrittenKeyReadable(d, TextGreenKey);
    IntLeaf(node, TextGreenKey, d.textColor.g);
    WrittenKeyReadable(d, TextBlueKey);
    IntLeaf(node, TextBlueKey, d.textColor.b);
    WrittenKeyReadable(d, BackgroundRedKey);
    IntLeaf(node, BackgroundRedKey, d.backgroundColor.r);
    WrittenKeyReadable(d, BackgroundGreenKey);
    IntLeaf(node, BackgroundGreenKey, d.backgroundColor.g);
    WrittenKeyReadable(d, BackgroundBlueKey);
    IntLeaf(node, BackgroundBlueKey, d.backgroundColor.b);
  }

  lemma WindowYamlReads(d: DisplayConfig)
    ensures WindowKindsMatch(DisplayConfigToYaml(d))
    ensures WindowReadsAs(DisplayConfigToYaml(d), d.windowWidth, d.windowHeight, d.opacity)
  {
    var node := DisplayConfigToYaml(d);
    assert WidthKey in node && node[WidthKey] == IntValue(d.windowWidth);
    assert HeightKey in node && node[HeightKey] == IntValue(d.windowHeight);
    assert OpacityKey in node && node[OpacityKey] == IntValue(d.opacity);
    WrittenKeyReadable(d, WidthKey);
    IntLeaf(node, WidthKey, d.windowWidth);
    WrittenKeyReadable(d, HeightKey);
    IntLeaf(node, HeightKey, d.windowHeight);
    WrittenKeyReadable(d, OpacityKey);
    IntLeaf(node, OpacityKey, d.opacity);
  }

  lemma PositionYamlReads(d: DisplayConfig)
    ensures PositionKindsMatch(DisplayConfigToYaml(d))
    ensures PositionReadsAs(DisplayConfigToYaml(d), d.positionX, d.positionY, d.isDraggable, d.isLocked)
  {
    var node := DisplayConfigToYaml(d);
    assert PositionXKey in node && node[PositionXKey] == IntValue(d.positionX);
    assert PositionYKey in node && node[PositionYKey] == IntValue(d.positionY);
    assert DraggableKey in node && node[DraggableKey] == BoolValue(d.isDraggable);
    assert LockedKey in node && node[LockedKey] == BoolValue(d.isLocked);
    WrittenKeyReadable(d, PositionXKey);
    IntLeaf(node, PositionXKey, d.positionX);
    WrittenKeyReadable(d, PositionYKey);
    IntLeaf(node, PositionYKey, d.positionY);
    WrittenKeyReadable(d, DraggableKey);
    BoolLeaf(node, DraggableKey, d.isDraggable);
    WrittenKeyReadable(d, LockedKey);
    BoolLeaf(node, LockedKey, d.isLocked);
  }

  /** What displayConfigToYaml writes is well-kinded and describes `d`. */
  lemma DisplayYamlReads(d: DisplayConfig)
    ensures KindsMatch(DisplayConfigToYaml(d)) && ReadsAs(DisplayConfigToYaml(d), d)
  {
    FontYamlReads(d);
    ColorYamlReads(d);
    WindowYamlReads(d);
    PositionYamlReads(d);
  }

  /** Reading back what displayConfigToYaml wrote gives the same display settings. */
  lemma DisplayYamlRoundTrip(d: DisplayConfig)
    ensures YamlToDisplayConfig(DisplayConfigToYaml(d)) == Some(d)
  {
    var node := DisplayConfigToYaml(d);
    DisplayYamlReads(d);
    ReadsAsUnique(node, YamlToDisplayConfig(node).value, d);
  }

  /** The settings a document describes are determined by it. */
  lemma ReadsAsUnique(node: Doc, a: DisplayConfig, b: DisplayConfig)
    requires ReadsAs(node, a) && ReadsAs(node, b)
    ensures a == b
  {
  }

  /** An empty display section leaves every display setting at its default. */
  lemma EmptyDisplaySectionGivesDefaults()
    ensures YamlToDisplayConfig(map[]) == Some(DefaultDisplayConfig)
  {
    EmptyIsReadable();
    ReadsAsUnique(map[], YamlToDisplayConfig(map[]).value, DefaultDisplayConfig);
  }

  // ---------------------------------------------------------------- the whole file

  const DurationKey: Path := ["timerDurationMinutes"]
  const AutoRestartKey: Path := ["autoRestart"]
  const StartMinimizedKey: Path := ["startMinimized"]
  const VersionKey: Path := ["configVersion"]
  const DisplaySection := "display"

  /** The configuration file: absent, not parseable as YAML, or a document. */
  datatype FileState = Missing | Unparsable | Present(doc: Doc)

  predicate TopKindsMatch(root: Doc) {
    && IntOrAbsent(root, DurationKey) && BoolOrAbsent(root, AutoRestartKey)
    && BoolOrAbsent(root, StartMinimizedKey) && StringOrAbsent(root, VersionKey)
  }

  predicate TimerReadsAs(root: Doc, duration: int, autoRestart: bool, startMinimized: bool, version: string) {
    var e := DefaultAppConfig;
    && IntFrom(root, DurationKey, duration, e.timerDurationMinutes)
    && BoolFrom(root, AutoRestartKey, autoRestart, e.autoRestart)
    && BoolFrom(root, StartMinimizedKey, startMinimized, e.startMinimized)
    && StringFrom(root, VersionKey, version, e.configVersion)
  }

  /** Every setting of `c` is read from `root`, falling back to a default-constructed `AppConfig`. */
  predicate ReadsConfig(root: Doc, c: AppConfig) {
    && TimerReadsAs(root, c.timerDurationMinutes, c.autoRestart, c.startMinimized, c.configVersion)
    && ReadsAs(Child(root, DisplaySection), c.display)
  }

  /** The top-level keys of the file. */
  function ReadTimerSettings(root: Doc): (r: Option<(int, bool, bool, string)>)
    ensures r.Some? <==> TopKindsMatch(root)
    ensures r.Some? ==> TimerReadsAs(root, r.value.0, r.value.1, r.value.2, r.value.3)
  {
    var e := DefaultAppConfig;
    var duration :- ReadInt(root, DurationKey, e.timerDurationMinutes);
    var autoRestart :- ReadBool(root, AutoRestartKey, e.autoRestart);
    var startMinimized :- ReadBool(root, StartMinimizedKey, e.startMinimized);
    var version :- ReadString(root, VersionKey, e.configVersion);
    Some((duration, autoRestart, startMinimized, version))
  }

  lemma ReadsConfigUnique(root: Doc, a: AppConfig, b: AppConfig)
    requires ReadsConfig(root, a) && ReadsConfig(root, b)
    ensures a == b
  {
    ReadsAsUnique(Child(root, DisplaySection), a.display, b.display);
  }

  lemma NoSectionIsEmpty(root: Doc, key: string)
    requires !HasChild(root, key)
    ensures Child(root, key) == map[]
  {
  }

  /** `root["display"]` converted when present; the defaults otherwise. */
  function DisplaySettings(root: Doc): (r: Option<DisplayConfig>)
    ensures r.Some? <==> KindsMatch(Child(root, DisplaySection))
    ensures r.Some? ==> ReadsAs(Child(root, DisplaySection), r.value)
  {
    if HasChild(root, DisplaySection) then YamlToDisplayConfig(Child(root, DisplaySection))
    else
      assert YamlToDisplayConfig(Child(root, DisplaySection)) == Some(DefaultDisplayConfig) by {
        NoSectionIsEmpty(root, DisplaySection);
        EmptyDisplaySectionGivesDefaults();
      }
      Some(DefaultDisplayConfig)
  }

  /**
   * loadConfigFromFile: nothing when the file is missing or unparsable or a
   * value has the wrong kind; otherwise the settings the document describes,
   * kept only when they pass validation.
   */
  function LoadConfigFromFile(file: FileState): (r: Option<AppConfig>)
    ensures r.Some? ==> file.Present? && ValidateConfig(r.value)
  {
    match file
    case Missing => None
    case Unparsable => None
    case Present(root) =>
      var timer :- ReadTimerSettings(root);
      var display :- DisplaySettings(root);
      var c := AppConfig(display, timer.0, timer.1, timer.2, timer.3);
      if ValidateConfig(c) then Some(c) else None
  }

  /** A loaded configuration is the one the document describes, defaults filling absent keys. */
  lemma LoadReadsDocument(root: Doc)
    requires LoadConfigFromFile(Present(root)).Some?
    ensures ReadsConfig(root, LoadConfigFromFile(Present(root)).value)
  {
  }

  /** A value of the wrong kind makes loading fail. */
  lemma LoadRejectsWrongKinds(root: Doc)
    requires !(TopKindsMatch(root) && KindsMatch(Child(root, DisplaySection)))
    ensures LoadConfigFromFile(Present(root)).None?
  {
  }

  /** On a well-kinded document, loading fails only because the described settings are invalid. */
  lemma LoadFailsOnlyWhenInvalid(root: Doc, c: AppConfig)
    requires TopKindsMatch(root) && KindsMatch(Child(root, DisplaySection)) && ReadsConfig(root, c)
    ensures LoadConfigFromFile(Present(root)) == if ValidateConfig(c) then Some(c) else None
  {
    TimerSettingsAre(root, c);
    DisplaySettingsAre(root, c.display);
  }

  lemma TimerSettingsAre(root: Doc, c: AppConfig)
    requires TopKindsMatch(root)
    requires TimerReadsAs(root, c.timerDurationMinutes, c.autoRestart, c.startMinimized, c.configVersion)
    ensures ReadTimerSettings(root) == Some((c.timerDurationMinutes, c.autoRestart, c.startMinimized, c.configVersion))
  {
  }

  lemma DisplaySettingsAre(root: Doc, d: DisplayConfig)
    requires KindsMatch(Child(root, DisplaySection)) && ReadsAs(Child(root, DisplaySection), d)
    ensures DisplaySettings(root) == Some(d)
  {
    ReadsAsUnique(Child(root, DisplaySection), DisplaySettings(root).value, d);
  }

  /** The top level of the document saveConfigToFile emits. */
  function TopLevelYaml(c: AppConfig): (top: Doc)
    ensures top.Keys == {VersionKey, DurationKey, AutoRestartKey, StartMinimizedKey}
    ensures (forall p :: p in top ==> |p| == 1) && !HasChild(top, DisplaySection)
    ensures top[VersionKey] == StringValue(c.configVersion)
    ensures top[DurationKey] == IntValue(c.timerDurationMinutes)
    ensures top[AutoRestartKey] == BoolValue(c.autoRestart)
    ensures top[StartMinimizedKey] == BoolValue(c.startMinimized)
  {
    map[
      VersionKey := StringValue(c.configVersion),
      DurationKey := IntValue(c.timerDurationMinutes),
      AutoRestartKey := BoolValue(c.autoRestart),
      StartMinimizedKey := BoolValue(c.startMinimized)]
  }

  /** The document saveConfigToFile emits for `c`: the top-level keys and the display section. */
  function AppConfigToYaml(c: AppConfig): (doc: Doc)
    ensures forall k :: k in TopLevelYaml(c) ==> k in doc && doc[k] == TopLevelYaml(c)[k]
    ensures HasChild(doc, DisplaySection) && Child(doc, DisplaySection) == DisplayConfigToYaml(c.display)
  {
    var top, sub := TopLevelYaml(c), DisplayConfigToYaml(c.display);
    assert FontFamilyKey in sub;
    assert Child(Graft(top, DisplaySection, sub), DisplaySection) == sub by {
      ChildOfGraft(top, DisplaySection, sub);
    }
    Graft(top, DisplaySection, sub)
  }

  /** Every key of the saved document reads back as the setting it was written from. */
  lemma SavedDocumentReadsAs(c: AppConfig)
    ensures TopKindsMatch(AppConfigToYaml(c)) && KindsMatch(Child(AppConfigToYaml(c), DisplaySection))
    ensures ReadsConfig(AppConfigToYaml(c), c)
  {
    var top, sub := TopLevelYaml(c), DisplayConfigToYaml(c.display);
    DisplayYamlReads(c.display);
    TopLevelReadable(top, DisplaySection, sub, DurationKey);
    TopLevelReadable(top, DisplaySection, sub, AutoRestartKey);
    TopLevelReadable(top, DisplaySection, sub, StartMinimizedKey);
    TopLevelReadable(top, DisplaySection, sub, VersionKey);
  }

  /** A valid configuration that was saved loads back unchanged. */
  lemma SaveLoadRoundTrip(c: AppConfig)
    requires ValidateConfig(c)
    ensures LoadConfigFromFile(Present(AppConfigToYaml(c))) == Some(c)
  {
    SavedDocumentReadsAs(c);
    LoadFailsOnlyWhenInvalid(AppConfigToYaml(c), c);
  }

  /** A file with no settings at all loads as the defaults. */
  lemma EmptyDocumentGivesDefaults()
    ensures LoadConfigFromFile(Present(map[])) == Some(DefaultAppConfig)
  {
    EmptyIsReadable();
    NoSectionIsEmpty(map[], DisplaySection);
    EmptyDisplaySectionGivesDefaults();
  }

  /** A `font.size` with a map below it makes the conversion throw, as `as<int>()` on a map does. */
  lemma MapAtSettingFails(node: Doc)
    requires IsMap(node, FontSizeKey)
    ensures YamlToDisplayConfig(node).None?
  {
    assert !FontKindsMatch(node);
  }

  /** A `display` entry that is a scalar makes loading fail, as subscripting a scalar throws. */
  lemma ScalarDisplaySectionFails(root: Doc)
    requires [DisplaySection] in root
    ensures LoadConfigFromFile(Present(root)).None?
  {
    var sub := Child(root, DisplaySection);
    assert [DisplaySection] + [] == [DisplaySection];
    assert [] in sub;
    assert FontFamilyKey[..0] == [];
    assert Blocked(sub, FontFamilyKey);
  }

  // ---------------------------------------------------------------- the manager

  class ConfigManager {
    const configFilePath: string
    /** What the configuration file holds. */
    var file: FileState
    var currentConfig: AppConfig

    /** The stored configuration always passes validation. */
    ghost predicate Valid()
      reads this
    {
      ValidateConfig(currentConfig)
    }

    /** Starts from the defaults and takes the file's settings when they load and validate. */
    constructor (file: FileState, configFilePath: string := "config.yaml")
      ensures Valid()
      ensures this.file == file && this.configFilePath == configFilePath
      ensures currentConfig == if LoadConfigFromFile(file).Some? then LoadConfigFromFile(file).value else DefaultAppConfig
    {
      this.configFilePath := configFilePath;
      this.file := file;
      currentConfig := GetDefaultConfig();
      var loaded := LoadConfigFromFile(file);
      if loaded.Some? {
        currentConfig := loaded.value;
      }
    }

    function GetConfig(): (c: AppConfig)
      reads this
      requires Valid()
      ensures ValidateConfig(c)
    {
      currentConfig
    }

    function GetConfigFilePath(): (path: string)
      reads this
      ensures path == configFilePath
    {
      configFilePath
    }

    /** A file that exists but does not parse still exists. */
    function ConfigFileExists(): (found: bool)
      reads this
      ensures found <==> file.Present? || file.Unparsable?
      ensures !found ==> LoadConfigFromFile(file).None?
    {
      !file.Missing?
    }

    /**
     * saveConfigToFile: refuses an invalid configuration before writing
     * anything; otherwise writes its document when the file can be opened.
     * `writable` is the outcome of opening the file for writing.
     */
    method SaveConfigToFile(config: AppConfig, writable: bool) returns (ok: bool)
      modifies this`file
      ensures ok == (ValidateConfig(config) && writable)
      ensures ok ==> file == Present(AppConfigToYaml(config)) && LoadConfigFromFile(file) == Some(config)
      ensures !ok ==> file == old(file)
    {
      if !ValidateConfig(config) {
        return false;
      }
      if !writable {
        return false;
      }
      file := Present(AppConfigToYaml(config));
      SaveLoadRoundTrip(config);
      return true;
    }

    method SaveConfig(writable: bool) returns (ok: bool)
      requires Valid()
      modifies this`file
      ensures Valid() && currentConfig == old(currentConfig)
      ensures ok == writable
      ensures ok ==> LoadConfigFromFile(file) == Some(currentConfig)
      ensures !ok ==> file == old(file)
    {
      var c := currentConfig;
      ok := SaveConfigToFile(c, writable);
      assert currentConfig == c;
    }

    /**
     * updateConfig: an invalid configuration is refused and nothing changes;
     * a valid one becomes current and, when asked, is saved.
     */
    method UpdateConfig(config: AppConfig, saveToFile: bool := true, writable: bool) returns (ok: bool)
      requires Valid()
      modifies this
      ensures Valid()
      ensures !ValidateConfig(config) ==> !ok && currentConfig == old(currentConfig) && file == old(file)
      ensures ValidateConfig(config) ==> currentConfig == config
      ensures ValidateConfig(config) && !saveToFile ==> ok && file == old(file)
      ensures ValidateConfig(config) && saveToFile ==> ok == writable
      ensures ok && saveToFile ==> LoadConfigFromFile(file) == Some(config)
      ensures !ok ==> file == old(file)
    {
      if !ValidateConfig(config) {
        return false;
      }
      currentConfig := config;
      if saveToFile {
        ok := SaveConfigToFile(currentConfig, writable);
        return;
      }
      return true;
    }
  }
}
