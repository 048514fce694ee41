/** The display settings records (IDisplayManager.h) with their default member initialisers. */
module Display {

  /** An RGB colour; `Color()` with its default arguments is white. */
  datatype Color = Color(r: int, g: int, b: int)

  const DefaultColor := Color(255, 255, 255)

  datatype DisplayConfig = DisplayConfig(
    fontFamily: string,
    fontSize: int,
    isBold: bool,
    textColor: Color,
    backgroundColor: Color,
    windowWidth: int,
    windowHeight: int,
    positionX: int,
    positionY: int,
    isDraggable: bool,
    isLocked: bool,
    opacity: int)

  /** `DisplayConfig{}`: Arial 24 bold, white on black, 120x50 at (100,100), draggable, unlocked, opacity 200. */
  const DefaultDisplayConfig := DisplayConfig(
    fontFamily := "Arial",
    fontSize := 24,
    isBold := true,
    textColor := Color(255, 255, 255),
    backgroundColor := Color(0, 0, 0),
    windowWidth := 120,
    windowHeight := 50,
    positionX := 100,
    positionY := 100,
    isDraggable := true,
    isLocked := false,
    opacity := 200)
}
