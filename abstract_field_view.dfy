/**
 * The base of the task detail and editor field widgets: which ContentSet a widget shows, the
 * background colour a layout option asks for, and a readable text colour for a background.
 */
module AbstractFieldView {
  import opened Wrappers
  import opened ContentValues
  import ContentSet

  // ---------------------------------------------------------------- text colour

  /** The 32 bits of an ARGB colour int (Java's negative ints are the patterns from 0x8000_0000 up). */
  type Argb = c: int | 0 <= c < 0x1_0000_0000

  function Alpha(c: Argb): int { c / 0x100_0000 }
  function Red(c: Argb): int { (c / 0x1_0000) % 0x100 }
  function Green(c: Argb): int { (c / 0x100) % 0x100 }
  function Blue(c: Argb): int { c % 0x100 }

  /** `Color.argb(255, 0x33, 0x33, 0x33)`. */
  const DARK_GREY: Argb := 0xFF33_3333
  /** `Color.WHITE`. */
  const WHITE: Argb := 0xFFFF_FFFF

  /** The weighted luminance (3 red, 4 green, 1 blue, over 8) scaled by the opacity. */
  function Determinant(c: Argb): int
  {
    var r := Red(c);
    var g := Green(c);
    var b := Blue(c);
    ((r + r + r + b + g + g + g + g) / 8) * Alpha(c) / 255
  }

  /** `getTextColorFromBackground`: dark grey on bright backgrounds, white on dark ones. */
  function TextColorFromBackground(color: Argb): (r: Argb)
    ensures r == DARK_GREY || r == WHITE
    ensures r == DARK_GREY <==> Determinant(color) > 180
  {
    if Determinant(color) > 180 then DARK_GREY else WHITE
  }

  lemma ScaledBelow(l: int, a: int)
    requires 0 <= l <= 255 && 0 <= a <= 255
    ensures 0 <= l * a / 255 <= l && l * a / 255 <= a
  {
    assert 0 <= l * (255 - a) && 0 <= (255 - l) * a;
    assert 0 <= l * a <= l * 255 && l * a <= 255 * a;
  }

  /** The determinant never exceeds the unscaled luminance nor the opacity, both at most 255. */
  lemma DeterminantBounds(c: Argb)
    ensures 0 <= Determinant(c) <= (3 * Red(c) + 4 * Green(c) + Blue(c)) / 8 <= 255
    ensures Determinant(c) <= Alpha(c) <= 255
  {
    var r := Red(c);
    var g := Green(c);
    var b := Blue(c);
    var l := (r + r + r + b + g + g + g + g) / 8;
    assert l == (3 * r + 4 * g + b) / 8 <= 255;
    ScaledBelow(l, Alpha(c));
  }

  /** A fully transparent background always gets white text. */
  lemma TransparentIsWhite(c: Argb)
    requires Alpha(c) == 0
    ensures TextColorFromBackground(c) == WHITE
  {
  }

  /** Dark text needs both a bright colour and an opacity above 180. */
  lemma DarkNeedsBrightAndOpaque(c: Argb)
    requires TextColorFromBackground(c) == DARK_GREY
    ensures (3 * Red(c) + 4 * Green(c) + Blue(c)) / 8 > 180 && Alpha(c) > 180
  {
    DeterminantBounds(c);
  }

  /** Opaque white gets dark text, opaque black white text. */
  lemma OpaqueExtremes()
    ensures TextColorFromBackground(0xFFFF_FFFF) == DARK_GREY
    ensures TextColorFromBackground(0xFF00_0000) == WHITE
  {
    assert Determinant(0xFFFF_FFFF) == 255;
  }

  // ---------------------------------------------------------------- the widget

  /** `Tasks.LIST_COLOR` and `Tasks.TASK_COLOR`, read by the two colour adapters. */
  const LIST_COLOR := "list_color"
  const TASK_COLOR := "task_color"

  /** The calls `setValue` makes on the field adapter to follow a ContentSet. */
  datatype ListenerCall = Unregister(values: ContentSet.ContentSet) | Register(values: ContentSet.ContentSet, initialNotification: bool)

  class AbstractFieldView {
    /** `mValues`. */
    var values: ContentSet.ContentSet?
    /** The layout options OPTION_USE_TASK_LIST_BACKGROUND_COLOR and OPTION_USE_TASK_BACKGROUND_COLOR (false when unset). */
    var useTaskListBackgroundColor: bool
    var useTaskBackgroundColor: bool
    /** The colour last passed to `setBackgroundColor`, if any. */
    var background: Option<int>
    /** The listener (un)registrations made so far. */
    var calls: seq<ListenerCall>

    constructor (useTaskListBackgroundColor: bool, useTaskBackgroundColor: bool)
      ensures values == null && background == None && calls == []
      ensures this.useTaskListBackgroundColor == useTaskListBackgroundColor
      ensures this.useTaskBackgroundColor == useTaskBackgroundColor
    {
      values := null;
      this.useTaskListBackgroundColor := useTaskListBackgroundColor;
      this.useTaskBackgroundColor := useTaskBackgroundColor;
      background := None;
      calls := [];
    }

    function ListColor(): Option<int>
      reads this, values
      requires values != null
    {
      AsInteger(values.Get(LIST_COLOR))
    }

    function TaskColor(): Option<int>
      reads this, values
      requires values != null
    {
      AsInteger(values.Get(TASK_COLOR))
    }

    /**
     * `getCustomBackgroundColor`: with the task-list option the list colour; otherwise with the
     * task option the task colour, or the list colour when the task has none; null otherwise.
     */
    function GetCustomBackgroundColor(): (r: Option<int>)
      reads this, values
      ensures values == null ==> r == None
      ensures values != null && useTaskListBackgroundColor ==> r == ListColor()
      ensures values != null && !useTaskListBackgroundColor && useTaskBackgroundColor ==>
        r == (if TaskColor().Some? then TaskColor() else ListColor())
      ensures !useTaskListBackgroundColor && !useTaskBackgroundColor ==> r == None
    {
      if values != null then
        if useTaskListBackgroundColor then ListColor()
        else if useTaskBackgroundColor then
          var taskColor := TaskColor();
          if taskColor.None? then ListColor() else taskColor
        else None
      else None
    }

    /**
     * `setValue`: nothing for the ContentSet already shown; otherwise the old one is left, the
     * new one is taken, the custom background applied if there is one, and the new one followed.
     */
    method SetValue(newValues: ContentSet.ContentSet?)
      modifies this
      ensures useTaskListBackgroundColor == old(useTaskListBackgroundColor) && useTaskBackgroundColor == old(useTaskBackgroundColor)
      ensures newValues == old(values) ==> values == old(values) && background == old(background) && calls == old(calls)
      ensures newValues != old(values) ==> values == newValues
      ensures newValues != old(values) ==>
        calls == old(calls) + (if old(values) != null then [Unregister(old(values))] else [])
          + (if newValues != null then [Register(newValues, true)] else [])
      ensures newValues != old(values) ==>
        background == (if GetCustomBackgroundColor().Some? then GetCustomBackgroundColor() else old(background))
    {
      if newValues == values {
        return;
      }
      if values != null {
        calls := calls + [Unregister(values)];
      }
      values := newValues;
      var customBackground := GetCustomBackgroundColor();
      if customBackground.Some? {
        background := customBackground;
      }
      if newValues != null {
        calls := calls + [Register(newValues, true)];
      }
    }
  }
}
