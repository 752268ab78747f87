/**
  The window's geometry arithmetic: which resize handle the pointer is on, the size a
  drag asks for, the minimum-size corrections, centring on the screen, and the
  `"WxH+X+Y"` geometry strings that are written and parsed back for the saved config.
 */
module WindowGeometry {
  import opened Wrappers
  import opened PyText

  const MinWidth: int := 400
  const MinHeight: int := 600
  /** How close to a border, in pixels, the pointer must be to grab it. */
  const HandleMargin: int := 10

  /** The eight resize handles, named by compass direction as Tk names them. */
  datatype Edge = N | S | E | W | NE | NW | SE | SW

  predicate IsCorner(e: Edge) { e == NE || e == NW || e == SE || e == SW }
  /** Handles whose drag moves the right border. */
  predicate OnEastSide(e: Edge) { e == E || e == NE || e == SE }
  /** Handles whose drag moves the left border. */
  predicate OnWestSide(e: Edge) { e == W || e == NW || e == SW }
  /** Handles whose drag moves the bottom border. */
  predicate OnSouthSide(e: Edge) { e == S || e == SW || e == SE }
  /** Handles whose drag moves the top border. */
  predicate OnNorthSide(e: Edge) { e == N || e == NW || e == NE }

  predicate NearLeft(x: int) { x < HandleMargin }
  predicate NearRight(x: int, width: int) { x > width - HandleMargin }
  predicate NearTop(y: int) { y < HandleMargin }
  predicate NearBottom(y: int, height: int) { y > height - HandleMargin }

  /**
    `start_resize` without a handle: classify a pointer at `(x, y)` in a `width` by
    `height` window. Corners win over edges, left over right and top over bottom;
    a pointer near no border grabs nothing.
   */
  function Classify(x: int, y: int, width: int, height: int): (r: Option<Edge>)
    ensures r == None <==> !NearLeft(x) && !NearRight(x, width) && !NearTop(y) && !NearBottom(y, height)
    ensures r.Some? && IsCorner(r.value) <==>
              (NearLeft(x) || NearRight(x, width)) && (NearTop(y) || NearBottom(y, height))
    ensures r.Some? ==> (OnWestSide(r.value) <==> NearLeft(x))
    ensures r.Some? ==> (OnEastSide(r.value) <==> NearRight(x, width) && !NearLeft(x))
    ensures r.Some? ==> (OnNorthSide(r.value) <==> NearTop(y))
    ensures r.Some? ==> (OnSouthSide(r.value) <==> NearBottom(y, height) && !NearTop(y))
  {
    if NearLeft(x) && NearTop(y) then Some(NW)
    else if NearRight(x, width) && NearTop(y) then Some(NE)
    else if NearLeft(x) && NearBottom(y, height) then Some(SW)
    else if NearRight(x, width) && NearBottom(y, height) then Some(SE)
    else if NearLeft(x) then Some(W)
    else if NearRight(x, width) then Some(E)
    else if NearTop(y) then Some(N)
    else if NearBottom(y, height) then Some(S)
    else None
  }

  datatype Size = Size(width: int, height: int)

  /** What `start_resize` records: the handle, the pointer's screen position and the window size. */
  datatype ResizeAnchor = ResizeAnchor(position: Edge, startX: int, startY: int, startWidth: int, startHeight: int)

  /**
    `start_resize`: a handle passed by its binding is used as is; otherwise the pointer
    is classified, and a pointer on no border records nothing (`None`).
   */
  function StartResize(handle: Option<Edge>, x: int, y: int, xRoot: int, yRoot: int, width: int, height: int)
    : (r: Option<ResizeAnchor>)
    ensures handle.Some? ==> r == Some(ResizeAnchor(handle.value, xRoot, yRoot, width, height))
    ensures handle.None? ==> (r.Some? <==> Classify(x, y, width, height).Some?)
    ensures r.Some? ==> r.value.startX == xRoot && r.value.startY == yRoot
                        && r.value.startWidth == width && r.value.startHeight == height
    ensures handle.None? && r.Some? ==> Classify(x, y, width, height) == Some(r.value.position)
  {
    var position := if handle.Some? then handle else Classify(x, y, width, height);
    match position
    case None => None
    case Some(p) => Some(ResizeAnchor(p, xRoot, yRoot, width, height))
  }

  function Max(a: int, b: int): int { if a < b then b else a }

  /**
    The size `on_resize` computes when the pointer is at `(xRoot, yRoot)`: the border
    the handle moves follows the pointer but never below 400 by 600; a dimension the
    handle does not move keeps its starting value.
   */
  function DraggedSize(position: Edge, anchor: ResizeAnchor, xRoot: int, yRoot: int): (r: Size)
    ensures var dx, dy := xRoot - anchor.startX, yRoot - anchor.startY;
      && (OnEastSide(position) ==>
            r.width >= MinWidth
            && (r.width == anchor.startWidth + dx || (r.width == MinWidth && anchor.startWidth + dx < MinWidth)))
      && (OnWestSide(position) ==>
            r.width >= MinWidth
            && (r.width == anchor.startWidth - dx || (r.width == MinWidth && anchor.startWidth - dx < MinWidth)))
      && (OnSouthSide(position) ==>
            r.height >= MinHeight
            && (r.height == anchor.startHeight + dy || (r.height == MinHeight && anchor.startHeight + dy < MinHeight)))
      && (OnNorthSide(position) ==>
            r.height >= MinHeight
            && (r.height == anchor.startHeight - dy || (r.height == MinHeight && anchor.startHeight - dy < MinHeight)))
      && (position == N || position == S ==> r.width == anchor.startWidth)
      && (position == E || position == W ==> r.height == anchor.startHeight)
  {
    var dx, dy := xRoot - anchor.startX, yRoot - anchor.startY;
    var width :=
      if OnEastSide(position) then Max(MinWidth, anchor.startWidth + dx)
      else if OnWestSide(position) then Max(MinWidth, anchor.startWidth - dx)
      else anchor.startWidth;
    var height :=
      if OnSouthSide(position) then Max(MinHeight, anchor.startHeight + dy)
      else if OnNorthSide(position) then Max(MinHeight, anchor.startHeight - dy)
      else anchor.startHeight;
    Size(width, height)
  }

  /**
    `on_resize`: nothing before any `start_resize`; otherwise the new size, issued as a
    geometry request only when it differs from the size at the start of the drag.
   */
  function OnResize(anchor: Option<ResizeAnchor>, handle: Option<Edge>, xRoot: int, yRoot: int): (r: Option<Size>)
    ensures anchor.None? ==> r.None?
    ensures anchor.Some? ==>
              var a := anchor.value;
              var size := DraggedSize(if handle.Some? then handle.value else a.position, a, xRoot, yRoot);
              (r.Some? <==> size != Size(a.startWidth, a.startHeight)) && (r.Some? ==> r.value == size)
  {
    match anchor
    case None => None
    case Some(a) =>
      var position := if handle.Some? then handle.value else a.position;
      var size := DraggedSize(position, a, xRoot, yRoot);
      if size.width != a.startWidth || size.height != a.startHeight then Some(size) else None
  }

  /** A drag that started at least 400 by 600 never asks for a smaller window. */
  lemma ResizeKeepsMinimum(a: ResizeAnchor, handle: Option<Edge>, xRoot: int, yRoot: int)
    requires a.startWidth >= MinWidth && a.startHeight >= MinHeight
    ensures var r := OnResize(Some(a), handle, xRoot, yRoot);
            r.Some? ==> r.value.width >= MinWidth && r.value.height >= MinHeight
  {
  }

  /** Moving the pointer back to where the drag started asks for no change. */
  lemma ResizeAtStartIsNoOp(a: ResizeAnchor, handle: Option<Edge>)
    requires a.startWidth >= MinWidth && a.startHeight >= MinHeight
    ensures OnResize(Some(a), handle, a.startX, a.startY) == None
  {
  }

  /**
    `on_window_resize`'s corrections, in the order it issues them: a width below 400
    asks for `400 x height`, then a height below 600 asks for `width x 600`, each with
    the other dimension as the event reported it.
   */
  function MinimumSizeRequests(width: int, height: int): (r: seq<Size>)
    ensures r == [] <==> width >= MinWidth && height >= MinHeight
    ensures |r| <= 2
    ensures forall k :: 0 <= k < |r| ==>
              (r[k] == Size(MinWidth, height) && width < MinWidth) || (r[k] == Size(width, MinHeight) && height < MinHeight)
    ensures width < MinWidth ==> r[0] == Size(MinWidth, height)
    ensures height < MinHeight ==> r[|r| - 1] == Size(width, MinHeight)
    ensures |r| == (if width < MinWidth then 1 else 0) + (if height < MinHeight then 1 else 0)
  {
    (if width < MinWidth then [Size(MinWidth, height)] else [])
    + (if height < MinHeight then [Size(width, MinHeight)] else [])
  }

  /** `center_window`'s position: half the screen less half the window, with floor division. */
  function CenteredPosition(screenWidth: int, screenHeight: int, width: int, height: int): (r: (int, int))
    ensures -1 <= screenWidth - (2 * r.0 + width) <= 1
    ensures -1 <= screenHeight - (2 * r.1 + height) <= 1
    ensures screenWidth % 2 == width % 2 <==> 2 * r.0 + width == screenWidth
    ensures screenHeight % 2 == height % 2 <==> 2 * r.1 + height == screenHeight
    ensures 2 * r.0 + width == screenWidth - screenWidth % 2 + width % 2
    ensures 2 * r.1 + height == screenHeight - screenHeight % 2 + height % 2
  {
    (screenWidth / 2 - width / 2, screenHeight / 2 - height / 2)
  }

  /** The values `save_window_config` stores: size and screen position. */
  datatype WindowConfig = WindowConfig(width: int, height: int, x: int, y: int)

  /** `f'{width}x{height}+{x}+{y}'` */
  function FormatGeometry(c: WindowConfig): string {
    IntToString(c.width) + "x" + IntToString(c.height) + "+" + IntToString(c.x) + "+" + IntToString(c.y)
  }

  /** `f"{width}x{height}"` */
  function FormatSize(width: int, height: int): string {
    IntToString(width) + "x" + IntToString(height)
  }

  /**
    The size half of `save_window_config`'s parse: the text must hold an `x` and split
    on it into exactly two integers; anything else is the `ValueError` (`None`).
   */
  function ParseSize(sizePart: string): (r: Option<Size>)
    ensures r.Some? ==> 'x' in sizePart
  {
    if 'x' !in sizePart then None
    else
      var dims := Split(sizePart, 'x');
      if |dims| != 2 || ParseInt(dims[0]).None? || ParseInt(dims[1]).None? then None
      else Some(Size(ParseInt(dims[0]).value, ParseInt(dims[1]).value))
  }

  /**
    `save_window_config`'s parse of the window's geometry string. It needs an `x`; the
    part before the first `+` must be a size; with at least two more `+`-separated parts
    the first two are the position, otherwise the window's current position is used.
    Any `ValueError` on the way means nothing is saved (`None`).
   */
  function ParseGeometry(geometry: string, currentX: int, currentY: int): (r: Option<WindowConfig>)
    ensures r.Some? ==> 'x' in geometry
    ensures r.Some? && |Split(geometry, '+')| < 3 ==> r.value.x == currentX && r.value.y == currentY
  {
    if 'x' !in geometry then None
    else
      var parts := Split(geometry, '+');
      var size := ParseSize(parts[0]);
      if size.None? then None
      else if |parts| < 3 then Some(WindowConfig(size.value.width, size.value.height, currentX, currentY))
      else if ParseInt(parts[1]).None? || ParseInt(parts[2]).None? then None
      else Some(WindowConfig(size.value.width, size.value.height, ParseInt(parts[1]).value, ParseInt(parts[2]).value))
  }

  lemma IntStringHasNo(i: int, c: char)
    requires c == '+' || c == 'x'
    ensures c !in IntToString(i)
  {
  }

  /** The size part of a geometry string splits on `x` into its two numbers. */
  lemma {:induction false} SplitSize(width: int, height: int)
    ensures 'x' in FormatSize(width, height)
    ensures '+' !in FormatSize(width, height)
    ensures Split(FormatSize(width, height), 'x') == [IntToString(width), IntToString(height)]
  {
    var w, h := IntToString(width), IntToString(height);
    IntStringHasNo(width, '+'); IntStringHasNo(height, '+');
    IntStringHasNo(width, 'x'); IntStringHasNo(height, 'x');
    var size := FormatSize(width, height);
    assert size[|w|] == 'x';
    var dims := [w, h];
    assert Join(dims[1..], 'x') == h;
    assert Join(dims, 'x') == size;
    SplitJoin(dims, 'x');
  }

  /** A full geometry string splits on `+` into its size part and the two coordinates. */
  lemma {:induction false} SplitGeometry(c: WindowConfig)
    ensures 'x' in FormatGeometry(c)
    ensures Split(FormatGeometry(c), '+') == [FormatSize(c.width, c.height), IntToString(c.x), IntToString(c.y)]
  {
    var size, x, y := FormatSize(c.width, c.height), IntToString(c.x), IntToString(c.y);
    SplitSize(c.width, c.height);
    IntStringHasNo(c.x, '+'); IntStringHasNo(c.y, '+');
    assert FormatGeometry(c) == size + "+" + x + "+" + y;
    SplitThree(size, x, y);
  }

  /** Three pieces with no `+` and an `x` in the first, joined by `+`, split back apart. */
  lemma {:induction false} SplitThree(size: string, x: string, y: string)
    requires '+' !in size && '+' !in x && '+' !in y && 'x' in size
    ensures 'x' in size + "+" + x + "+" + y
    ensures Split(size + "+" + x + "+" + y, '+') == [size, x, y]
  {
    var pieces := [size, x, y];
    assert Join(pieces[2..], '+') == y;
    assert Join(pieces[1..], '+') == x + "+" + y;
    assert Join(pieces, '+') == size + "+" + x + "+" + y;
    var k :| 0 <= k < |size| && size[k] == 'x';
    assert (size + "+" + x + "+" + y)[k] == 'x';
    SplitJoin(pieces, '+');
  }

  /** A geometry written as `WxH+X+Y` is read back as the same size and position. */
  lemma GeometryRoundTrip(c: WindowConfig, currentX: int, currentY: int)
    ensures ParseGeometry(FormatGeometry(c), currentX, currentY) == Some(c)
  {
    SplitGeometry(c);
    SplitSize(c.width, c.height);
    IntRoundTrip(c.width); IntRoundTrip(c.height); IntRoundTrip(c.x); IntRoundTrip(c.y);
    var parts := Split(FormatGeometry(c), '+');
    assert ParseSize(parts[0]) == Some(Size(c.width, c.height));
    ParseGeometryWith(FormatGeometry(c), c, currentX, currentY);
  }

  lemma ParseGeometryWith(g: string, c: WindowConfig, currentX: int, currentY: int)
    requires 'x' in g
    requires var parts := Split(g, '+');
             && |parts| == 3 && ParseSize(parts[0]) == Some(Size(c.width, c.height))
             && ParseInt(parts[1]) == Some(c.x) && ParseInt(parts[2]) == Some(c.y)
    ensures ParseGeometry(g, currentX, currentY) == Some(c)
  {
  }

  /** A geometry written as `WxH` is read back as that size at the window's current position. */
  lemma SizeRoundTrip(width: int, height: int, currentX: int, currentY: int)
    ensures ParseGeometry(FormatSize(width, height), currentX, currentY) == Some(WindowConfig(width, height, currentX, currentY))
  {
    var size := FormatSize(width, height);
    SplitSize(width, height);
    SplitJoin([size], '+');
    IntRoundTrip(width); IntRoundTrip(height);
    assert ParseSize(size) == Some(Size(width, height));
  }
}
