/**
 * Stage one: a CS-Studio display (`.bob`) becomes an SVG whose text nodes carry their
 * process-variable (PV) names in an `inkscape:label` attribute.
 *
 * `ParseBob` folds over the display's widgets, keeps the `label` and `textupdate` kinds as
 * canvas items and sizes the canvas; `ItemsToSvg` numbers the items that have text as
 * `text-1`, `text-2`, ... and stamps each live `textupdate` node with its PV.
 */
module BobToSvg {
  import opened Wrappers
  import opened PyText
  import opened XmlTree

  /** Added once to the largest right and bottom edge to size the canvas. */
  const Margin := 20
  /** The Channel Access scheme prefix taken off a PV name. */
  const CaPrefix := "ca://"
  /** The text every `textupdate` shows, since no live value exists at conversion time. */
  const Placeholder := "22.2C"
  const DefaultFamily := "Sans"
  const DefaultSize := 12
  /** The Clark-notation key ElementTree uses for `inkscape:label`, in the Inkscape namespace. */
  const LabelAttr := "{http://www.inkscape.org/namespaces/inkscape}label"
  const SvgNs := "http://www.w3.org/2000/svg"
  const IdPrefix := "text-"

  // ---------------------------------------------------------------- the display

  /** The attributes of the inner `<font>` of `<font><font .../></font>`. */
  datatype FontAttrs = FontAttrs(family: Option<string>, size: Option<string>)

  /** The attributes of the `<color>` inside `<foreground_color>`. */
  datatype ColorAttrs = ColorAttrs(red: Option<string>, green: Option<string>, blue: Option<string>)

  /**
   * One `<widget>` child of the display root. `kind` is its `type` attribute; each other
   * `Option<string>` is the text of the first child element with that tag, None when the
   * element or its text is absent. `font` is None without an outer `<font>`, Some(None) with
   * an outer but no inner one; `foregroundColor` likewise for `<foreground_color><color>`.
   */
  datatype Widget = Widget(
    kind: Option<string>,
    x: Option<string>, y: Option<string>, width: Option<string>, height: Option<string>,
    name: Option<string>, text: Option<string>, pvName: Option<string>,
    font: Option<Option<FontAttrs>>,
    foregroundColor: Option<Option<ColorAttrs>>)

  // ---------------------------------------------------------------- canvas items

  datatype Kind = Label | TextUpdate

  /** The default size is the int 12 and prints as "12"; a parsed size is a float. */
  datatype FontSize = IntSize(n: int) | FloatSize(f: Float)

  datatype Rgb = Rgb(r: int, g: int, b: int)

  /** The canonical record built for each recognised widget. */
  datatype Item = Item(
    kind: Kind, widgetName: string, pvName: string, text: string,
    x: int, y: int, width: int, height: int,
    fontFamily: string, fontSize: FontSize, color: Rgb)

  // ---------------------------------------------------------------- coercion helpers

  /** `get_child_text`: the child's text without surrounding whitespace, or the default. */
  function ChildText(child: Option<string>, default: string): (r: string)
    ensures child.None? ==> r == default
    ensures child.Some? ==> IsPaddingOf(r, child.value) && (r == [] || (!IsSpace(r[0]) && !IsSpace(r[|r| - 1])))
  {
    match child
    case None => default
    case Some(t) => Strip(t)
  }

  /** `i` is the real number `v` rounded toward zero. */
  ghost predicate TowardZero(i: int, v: real) {
    if v >= 0.0 then i as real <= v < i as real + 1.0 else i as real - 1.0 < v <= i as real
  }

  /**
   * `get_child_int`: `int(float(text))`, the default when the child or its text is missing or
   * the text is not a number.
   */
  function ChildInt(child: Option<string>, default: int): (r: int)
    ensures child.None? ==> r == default
    ensures child.Some? && ParseFloat(Strip(child.value)).None? ==> r == default
    ensures child.Some? && ParseFloat(Strip(child.value)).Some? ==> TowardZero(r, Value(ParseFloat(Strip(child.value)).value))
  {
    match child
    case None => default
    case Some(t) =>
      match ParseFloat(Strip(t))
      case None => default
      case Some(d) =>
        TruncateTowardZero(d);
        Truncate(d)
  }

  /** Integer text, as `.bob` files carry it, reads back as its own value. */
  lemma ChildIntOfInt(n: int, default: int)
    ensures ChildInt(Some(IntToString(n)), default) == n
  {
    var s := IntToString(n);
    StripUnpadded(s);
    ParseFloatOfIntString(n);
  }

  /**
   * `get_font_props`: the family and size of the inner `<font>`; ("Sans", 12) unless both
   * levels exist; a missing family is "Sans", a missing or unparsable size is 12.
   */
  function FontProps(font: Option<Option<FontAttrs>>): (r: (string, FontSize))
    ensures font.None? || font.value.None? ==> r == (DefaultFamily, IntSize(DefaultSize))
    ensures font.Some? && font.value.Some? ==> r.0 == font.value.value.family.GetOr(DefaultFamily)
    ensures font.Some? && font.value.Some? ==> var size := font.value.value.size;
      r.1 == if size.Some? && ParseFloat(size.value).Some? then FloatSize(ParseFloat(size.value).value) else IntSize(DefaultSize)
  {
    match font
    case Some(Some(inner)) =>
      var size := match inner.size
        case None => IntSize(DefaultSize)
        case Some(s) => (match ParseFloat(s) case None => IntSize(DefaultSize) case Some(f) => FloatSize(f));
      (inner.family.GetOr(DefaultFamily), size)
    case _ => (DefaultFamily, IntSize(DefaultSize))
  }

  /** One colour component: `int(attr)`, where a missing attribute is the default component 0. */
  function Component(attr: Option<string>): (r: Option<int>)
    ensures attr.None? ==> r == Some(0)
    ensures attr.Some? ==> r == ParseInt(attr.value)
  {
    match attr
    case None => Some(0)
    case Some(s) => ParseInt(s)
  }

  /**
   * `get_foreground_color`: the three components of `<foreground_color><color>`, or black as a
   * whole when either element is missing or any present component is not an integer.
   */
  function ForegroundColor(fg: Option<Option<ColorAttrs>>): (r: Rgb)
    ensures fg.None? || fg.value.None? ==> r == Rgb(0, 0, 0)
    ensures fg.Some? && fg.value.Some? ==>
      var c := fg.value.value;
      var (red, green, blue) := (Component(c.red), Component(c.green), Component(c.blue));
      if red.Some? && green.Some? && blue.Some? then r == Rgb(red.value, green.value, blue.value)
      else r == Rgb(0, 0, 0)
  {
    match fg
    case Some(Some(c)) =>
      (match (Component(c.red), Component(c.green), Component(c.blue))
       case (Some(r), Some(g), Some(b)) => Rgb(r, g, b)
       case _ => Rgb(0, 0, 0))
    case _ => Rgb(0, 0, 0)
  }

  /** Colour attributes written as integers read back as that colour. */
  lemma ForegroundColorOfInts(r: int, g: int, b: int)
    ensures ForegroundColor(Some(Some(ColorAttrs(Some(IntToString(r)), Some(IntToString(g)), Some(IntToString(b)))))) == Rgb(r, g, b)
  {
    ParseIntOfString(r);
    ParseIntOfString(g);
    ParseIntOfString(b);
  }

  /** Removes the `ca://` scheme from a PV reference when, and only when, it is there. */
  function StripCaPrefix(raw: string): (pv: string)
    ensures CaPrefix <= raw ==> raw == CaPrefix + pv
    ensures !(CaPrefix <= raw) ==> pv == raw
  {
    if CaPrefix <= raw then raw[|CaPrefix|..] else raw
  }

  lemma StripCaPrefixOfPrefixed(pv: string)
    ensures StripCaPrefix(CaPrefix + pv) == pv
  {
    assert CaPrefix <= CaPrefix + pv;
  }

  // ---------------------------------------------------------------- extraction

  /** The widget's kind when it is one of the two recognised ones (a missing `type` is ""). */
  function KindOf(w: Widget): (k: Option<Kind>)
    ensures k == Some(Label) <==> w.kind == Some("label")
    ensures k == Some(TextUpdate) <==> w.kind == Some("textupdate")
  {
    var t := w.kind.GetOr("");
    if t == "label" then Some(Label) else if t == "textupdate" then Some(TextUpdate) else None
  }

  /** The item one widget contributes, if its kind is recognised. */
  function ToItem(w: Widget): (r: Option<Item>)
    ensures r.Some? <==> KindOf(w).Some?
    ensures r.Some? ==> var it := r.value;
      && it.kind == KindOf(w).value
      && it.widgetName == ChildText(w.name, "")
      && it.x == ChildInt(w.x, 0) && it.y == ChildInt(w.y, 0)
      && it.width == ChildInt(w.width, 80) && it.height == ChildInt(w.height, 20)
      && (it.fontFamily, it.fontSize) == FontProps(w.font)
      && it.color == ForegroundColor(w.foregroundColor)
    ensures r.Some? && r.value.kind == Label ==> r.value.pvName == "" && r.value.text == ChildText(w.text, "")
    ensures r.Some? && r.value.kind == TextUpdate ==>
      r.value.text == Placeholder && r.value.pvName == StripCaPrefix(ChildText(w.pvName, ""))
  {
    match KindOf(w)
    case None => None
    case Some(kind) =>
      var (text, pv) := if kind == Label then (ChildText(w.text, ""), "")
                        else (Placeholder, StripCaPrefix(ChildText(w.pvName, "")));
      var (family, size) := FontProps(w.font);
      Some(Item(kind, ChildText(w.name, ""), pv, text,
        ChildInt(w.x, 0), ChildInt(w.y, 0), ChildInt(w.width, 80), ChildInt(w.height, 20),
        family, size, ForegroundColor(w.foregroundColor)))
  }

  /** The items of a widget list, in widget order. */
  function ExtractItems(ws: seq<Widget>): seq<Item> {
    if ws == [] then []
    else
      var last := ToItem(ws[|ws| - 1]);
      ExtractItems(ws[..|ws| - 1]) + (if last.Some? then [last.value] else [])
  }

  /** Extraction is widget by widget: the items of a concatenation are the concatenated items. */
  lemma {:induction false} ExtractAppend(a: seq<Widget>, b: seq<Widget>)
    ensures ExtractItems(a + b) == ExtractItems(a) + ExtractItems(b)
  {
    if b == [] {
      assert a + b == a;
    } else {
      var b' := b[..|b| - 1];
      assert (a + b)[..|a + b| - 1] == a + b';
      ExtractAppend(a, b');
    }
  }

  /** A widget of any other kind contributes no item, and therefore no extent either. */
  lemma UnrecognisedIgnored(a: seq<Widget>, w: Widget, b: seq<Widget>)
    requires KindOf(w).None?
    ensures ExtractItems(a + [w] + b) == ExtractItems(a + b)
  {
    ExtractAppend(a + [w], b);
    ExtractAppend(a, [w]);
    ExtractAppend(a, b);
    assert ExtractItems([w]) == ExtractItems([]) + [] by {
      assert [w][..0] == [];
    }
  }

  /** Every item is the record of some recognised widget. */
  lemma {:induction false} ItemsComeFromWidgets(ws: seq<Widget>, k: nat)
    requires k < |ExtractItems(ws)|
    ensures exists i :: 0 <= i < |ws| && ToItem(ws[i]) == Some(ExtractItems(ws)[k])
  {
    var init := ws[..|ws| - 1];
    if k < |ExtractItems(init)| {
      ItemsComeFromWidgets(init, k);
      var i :| 0 <= i < |init| && ToItem(init[i]) == Some(ExtractItems(init)[k]);
      assert ws[i] == init[i];
    } else {
      assert ToItem(ws[|ws| - 1]) == Some(ExtractItems(ws)[k]);
    }
  }

  // ---------------------------------------------------------------- canvas extent

  function Max(a: int, b: int): int {
    if a >= b then a else b
  }

  /** A running maximum started at 0, as `max_x = max(max_x, ...)`. */
  function RunningMax(vs: seq<int>): int {
    if vs == [] then 0 else Max(RunningMax(vs[..|vs| - 1]), vs[|vs| - 1])
  }

  /** The running maximum is the maximum of 0 and the values. */
  lemma {:induction false} RunningMaxIsMax(vs: seq<int>)
    ensures RunningMax(vs) >= 0
    ensures forall i :: 0 <= i < |vs| ==> vs[i] <= RunningMax(vs)
    ensures RunningMax(vs) == 0 || exists i :: 0 <= i < |vs| && vs[i] == RunningMax(vs)
  {
    if vs != [] {
      var init := vs[..|vs| - 1];
      RunningMaxIsMax(init);
      assert forall i :: 0 <= i < |init| ==> vs[i] == init[i];
      if RunningMax(vs) != 0 && RunningMax(vs) != vs[|vs| - 1] {
        var i :| 0 <= i < |init| && init[i] == RunningMax(init);
        assert vs[i] == RunningMax(vs);
      }
    }
  }

  /** Folding in more values never lowers the running maximum. */
  lemma {:induction false} RunningMaxMonotone(vs: seq<int>, ws: seq<int>)
    ensures RunningMax(vs) <= RunningMax(vs + ws)
  {
    if ws == [] {
      assert vs + ws == vs;
    } else {
      assert (vs + ws)[..|vs + ws| - 1] == vs + ws[..|ws| - 1];
      RunningMaxMonotone(vs, ws[..|ws| - 1]);
    }
  }

  function Rights(items: seq<Item>): (r: seq<int>)
    ensures |r| == |items| && forall i :: 0 <= i < |items| ==> r[i] == items[i].x + items[i].width
  {
    seq(|items|, i requires 0 <= i < |items| => items[i].x + items[i].width)
  }

  function Bottoms(items: seq<Item>): (r: seq<int>)
    ensures |r| == |items| && forall i :: 0 <= i < |items| ==> r[i] == items[i].y + items[i].height
  {
    seq(|items|, i requires 0 <= i < |items| => items[i].y + items[i].height)
  }

  lemma RunningMaxSnoc(vs: seq<int>, v: int)
    ensures RunningMax(vs + [v]) == Max(RunningMax(vs), v)
  {
    assert (vs + [v])[..|vs|] == vs;
  }

  /** One more item moves the running extents as `max_x = max(max_x, x + width)` does. */
  lemma EdgesAppend(items: seq<Item>, item: Item)
    ensures RunningMax(Rights(items + [item])) == Max(RunningMax(Rights(items)), item.x + item.width)
    ensures RunningMax(Bottoms(items + [item])) == Max(RunningMax(Bottoms(items)), item.y + item.height)
  {
    assert Rights(items + [item]) == Rights(items) + [item.x + item.width];
    assert Bottoms(items + [item]) == Bottoms(items) + [item.y + item.height];
    RunningMaxSnoc(Rights(items), item.x + item.width);
    RunningMaxSnoc(Bottoms(items), item.y + item.height);
  }

  /** The right extent is at least 0, reaches every right edge, and is 0 or one of them. */
  lemma RightExtent(items: seq<Item>)
    ensures RunningMax(Rights(items)) >= 0
    ensures forall i :: 0 <= i < |items| ==> items[i].x + items[i].width <= RunningMax(Rights(items))
    ensures RunningMax(Rights(items)) == 0 || exists i :: 0 <= i < |items| && items[i].x + items[i].width == RunningMax(Rights(items))
  {
    var vs := Rights(items);
    RunningMaxIsMax(vs);
    if RunningMax(vs) != 0 {
      var i :| 0 <= i < |vs| && vs[i] == RunningMax(vs);
      assert items[i].x + items[i].width == RunningMax(vs);
    }
  }

  /** The bottom extent likewise. */
  lemma BottomExtent(items: seq<Item>)
    ensures RunningMax(Bottoms(items)) >= 0
    ensures forall i :: 0 <= i < |items| ==> items[i].y + items[i].height <= RunningMax(Bottoms(items))
    ensures RunningMax(Bottoms(items)) == 0 || exists i :: 0 <= i < |items| && items[i].y + items[i].height == RunningMax(Bottoms(items))
  {
    var vs := Bottoms(items);
    RunningMaxIsMax(vs);
    if RunningMax(vs) != 0 {
      var i :| 0 <= i < |vs| && vs[i] == RunningMax(vs);
      assert items[i].y + items[i].height == RunningMax(vs);
    }
  }

  lemma ExtractStep(widgets: seq<Widget>, i: nat)
    requires i < |widgets|
    ensures ExtractItems(widgets[..i + 1]) == ExtractItems(widgets[..i]) + (match ToItem(widgets[i]) case Some(it) => [it] case None => [])
  {
    assert widgets[..i + 1][..i] == widgets[..i];
  }

  /**
   * `parse_bob` after the XML is read: the recognised widgets' items in order, and the
   * canvas size, the largest right and bottom edge (at least 0) plus the margin.
   */
  method ParseBob(widgets: seq<Widget>) returns (items: seq<Item>, width: int, height: int)
    ensures items == ExtractItems(widgets)
    ensures width == RunningMax(Rights(items)) + Margin && height == RunningMax(Bottoms(items)) + Margin
    ensures width >= Margin && forall i :: 0 <= i < |items| ==> items[i].x + items[i].width + Margin <= width
    ensures height >= Margin && forall i :: 0 <= i < |items| ==> items[i].y + items[i].height + Margin <= height
    ensures width == Margin || exists i :: 0 <= i < |items| && items[i].x + items[i].width + Margin == width
    ensures height == Margin || exists i :: 0 <= i < |items| && items[i].y + items[i].height + Margin == height
  {
    items := [];
    var maxX, maxY := 0, 0;
    var i := 0;
    while i < |widgets|
      invariant 0 <= i <= |widgets|
      invariant items == ExtractItems(widgets[..i])
      invariant maxX == RunningMax(Rights(items)) && maxY == RunningMax(Bottoms(items))
    {
      var record := ToItem(widgets[i]);
      if record.Some? {
        var item := record.value;
        maxX := Max(maxX, item.x + item.width);
        maxY := Max(maxY, item.y + item.height);
        EdgesAppend(items, item);
        items := items + [item];
      }
      ExtractStep(widgets, i);
      i := i + 1;
    }
    assert widgets[..i] == widgets;
    width, height := maxX + Margin, maxY + Margin;
    RightExtent(items);
    BottomExtent(items);
  }

  // ---------------------------------------------------------------- SVG encoding

  /** The items that are drawn: those whose text is not empty, in item order. */
  function Emitted(items: seq<Item>): seq<Item> {
    if items == [] then []
    else (if items[0].text != "" then [items[0]] else []) + Emitted(items[1..])
  }

  /** A drawn item is an item with text, and there are no more drawn items than items. */
  lemma {:induction false} EmittedHaveText(items: seq<Item>)
    ensures |Emitted(items)| <= |items|
    ensures forall k :: 0 <= k < |Emitted(items)| ==> Emitted(items)[k].text != "" && Emitted(items)[k] in items
  {
    if items != [] {
      EmittedHaveText(items[1..]);
      forall k | 0 <= k < |Emitted(items[1..])| ensures Emitted(items[1..])[k] in items {
        var j :| 0 <= j < |items[1..]| && items[1..][j] == Emitted(items[1..])[k];
        assert items[j + 1] == items[1..][j];
      }
    }
  }

  lemma {:induction false} EmittedAppend(a: seq<Item>, b: seq<Item>)
    ensures Emitted(a + b) == Emitted(a) + Emitted(b)
  {
    if a == [] {
      assert a + b == b;
    } else {
      assert (a + b)[0] == a[0] && (a + b)[1..] == a[1..] + b;
      EmittedAppend(a[1..], b);
    }
  }

  /** The `fill` presentation attribute, `rgb(r,g,b)`. */
  function Fill(c: Rgb): string {
    "rgb(" + IntToString(c.r) + "," + IntToString(c.g) + "," + IntToString(c.b) + ")"
  }

  /** `str(font_size)`: "12" for the default int, the float's positional text otherwise. */
  function FontSizeText(size: FontSize): string {
    match size
    case IntSize(n) => IntToString(n)
    case FloatSize(f) => FloatRepr(f)
  }

  /** The printed font size reads back, with `float()`, as the size the item holds. */
  lemma FontSizeTextValue(size: FontSize)
    ensures ParseFloat(FontSizeText(size)).Some?
    ensures size.IntSize? ==> Truncate(ParseFloat(FontSizeText(size)).value) == size.n
    ensures size.FloatSize? ==> Value(ParseFloat(FontSizeText(size)).value) == Value(size.f)
  {
    match size
    case IntSize(n) => ParseFloatOfIntString(n);
    case FloatSize(f) => FloatReprValue(f);
  }

  /** The presentation attributes of a text node, as handed to `SubElement`. */
  function PresentationAttrs(id: string, x: string, y: string, family: string, size: string, fill: string): map<string, string> {
    map["id" := id, "x" := x, "y" := y, "font-family" := family, "font-size" := size, "fill" := fill]
  }

  /** Only a `textupdate` with a PV gets an `inkscape:label`, which is the PV. */
  function Stamp(attrs: map<string, string>, item: Item): map<string, string> {
    if item.kind == TextUpdate && item.pvName != "" then attrs[LabelAttr := item.pvName] else attrs
  }

  /** The attributes of the text node numbered `n`; the baseline `y + 0.75 * h` is held as four times its value. */
  function TextAttrs(item: Item, n: int): map<string, string> {
    Stamp(PresentationAttrs(IdPrefix + IntToString(n), IntToString(item.x), QuarterString(4 * item.y + 3 * item.height),
      item.fontFamily, FontSizeText(item.fontSize), Fill(item.color)), item)
  }

  /** The label key is none of the presentation keys. */
  lemma LabelNotPresentation(id: string, x: string, y: string, family: string, size: string, fill: string)
    ensures PresentationAttrs(id, x, y, family, size, fill).Keys == {"id", "x", "y", "font-family", "font-size", "fill"}
    ensures LabelAttr !in PresentationAttrs(id, x, y, family, size, fill)
  {
    assert |LabelAttr| == 50;
    assert LabelAttr !in {"id", "x", "y", "font-family", "font-size", "fill"};
  }

  /** Stamping the label leaves every shorter key, so every presentation attribute, as it was. */
  lemma StampKeeps(attrs: map<string, string>, item: Item, k: string)
    requires k in attrs && |k| < |LabelAttr|
    ensures k in Stamp(attrs, item) && Stamp(attrs, item)[k] == attrs[k]
  {}

  lemma StampLabel(attrs: map<string, string>, item: Item)
    requires LabelAttr !in attrs
    ensures LabelAttr in Stamp(attrs, item) <==> item.kind == TextUpdate && item.pvName != ""
    ensures LabelAttr in Stamp(attrs, item) ==> Stamp(attrs, item)[LabelAttr] == item.pvName
  {}

  /** Stamping keeps each of the six presentation attributes of a text node. */
  lemma PresentationLookup(attrs: map<string, string>, item: Item, id: string, x: string, y: string, family: string, size: string, fill: string)
    requires attrs == PresentationAttrs(id, x, y, family, size, fill)
    ensures "id" in Stamp(attrs, item) && Stamp(attrs, item)["id"] == id
    ensures "x" in Stamp(attrs, item) && Stamp(attrs, item)["x"] == x
    ensures "y" in Stamp(attrs, item) && Stamp(attrs, item)["y"] == y
    ensures "font-family" in Stamp(attrs, item) && Stamp(attrs, item)["font-family"] == family
    ensures "font-size" in Stamp(attrs, item) && Stamp(attrs, item)["font-size"] == size
    ensures "fill" in Stamp(attrs, item) && Stamp(attrs, item)["fill"] == fill
  {
    assert attrs["id"] == id && attrs["x"] == x && attrs["y"] == y;
    assert attrs["font-family"] == family && attrs["font-size"] == size && attrs["fill"] == fill;
    StampKeeps(attrs, item, "id");
    StampKeeps(attrs, item, "x");
    StampKeeps(attrs, item, "y");
    StampKeeps(attrs, item, "font-family");
    StampKeeps(attrs, item, "font-size");
    StampKeeps(attrs, item, "fill");
  }

  lemma TextAttrsPresentation(item: Item, n: int)
    ensures "id" in TextAttrs(item, n) && TextAttrs(item, n)["id"] == IdPrefix + IntToString(n)
    ensures "x" in TextAttrs(item, n) && TextAttrs(item, n)["x"] == IntToString(item.x)
    ensures "y" in TextAttrs(item, n) && TextAttrs(item, n)["y"] == QuarterString(4 * item.y + 3 * item.height)
    ensures "font-family" in TextAttrs(item, n) && TextAttrs(item, n)["font-family"] == item.fontFamily
    ensures "font-size" in TextAttrs(item, n) && TextAttrs(item, n)["font-size"] == FontSizeText(item.fontSize)
    ensures "fill" in TextAttrs(item, n) && TextAttrs(item, n)["fill"] == Fill(item.color)
  {
    var id, x, y, family, size, fill := IdPrefix + IntToString(n), IntToString(item.x), QuarterString(4 * item.y + 3 * item.height),
      item.fontFamily, FontSizeText(item.fontSize), Fill(item.color);
    PresentationLookup(PresentationAttrs(id, x, y, family, size, fill), item, id, x, y, family, size, fill);
  }

  lemma TextAttrsLabel(item: Item, n: int)
    ensures TextAttrs(item, n).Keys == {"id", "x", "y", "font-family", "font-size", "fill"} + (if item.kind == TextUpdate && item.pvName != "" then {LabelAttr} else {})
    ensures LabelAttr in TextAttrs(item, n) <==> item.kind == TextUpdate && item.pvName != ""
    ensures LabelAttr in TextAttrs(item, n) ==> TextAttrs(item, n)[LabelAttr] == item.pvName
  {
    var id, x, y, family, size, fill := IdPrefix + IntToString(n), IntToString(item.x), QuarterString(4 * item.y + 3 * item.height),
      item.fontFamily, FontSizeText(item.fontSize), Fill(item.color);
    LabelNotPresentation(id, x, y, family, size, fill);
    StampLabel(PresentationAttrs(id, x, y, family, size, fill), item);
  }

  /**
   * The `<text>` node for an item numbered `n`: id `text-<n>`, the item's position, font and
   * colour, and an `inkscape:label` holding the PV exactly when the item is a live `textupdate`
   * with a PV; it has no other attribute.
   */
  function TextNode(item: Item, n: int): (e: Element)
    ensures e.tag == "text" && e.text == Some(item.text) && e.children == []
    ensures e.attrs.Keys == {"id", "x", "y", "font-family", "font-size", "fill"} + (if item.kind == TextUpdate && item.pvName != "" then {LabelAttr} else {})
    ensures "id" in e.attrs && e.attrs["id"] == IdPrefix + IntToString(n)
    ensures "x" in e.attrs && e.attrs["x"] == IntToString(item.x)
    ensures "y" in e.attrs && e.attrs["y"] == QuarterString(4 * item.y + 3 * item.height)
    ensures "font-family" in e.attrs && e.attrs["font-family"] == item.fontFamily
    ensures "font-size" in e.attrs && e.attrs["font-size"] == FontSizeText(item.fontSize)
    ensures "fill" in e.attrs && e.attrs["fill"] == Fill(item.color)
    ensures LabelAttr in e.attrs <==> item.kind == TextUpdate && item.pvName != ""
    ensures LabelAttr in e.attrs ==> e.attrs[LabelAttr] == item.pvName
  {
    TextAttrsPresentation(item, n);
    TextAttrsLabel(item, n);
    Element("text", TextAttrs(item, n), Some(item.text), [])
  }

  /** The baseline attribute reads back, with `float()`, as `y + 0.75 * height`. */
  lemma TextNodeBaseline(item: Item, n: int)
    ensures ParseFloat(TextNode(item, n).attrs["y"]).Some?
    ensures 4.0 * Value(ParseFloat(TextNode(item, n).attrs["y"]).value) == (4 * item.y + 3 * item.height) as real
  {
    QuarterStringValue(4 * item.y + 3 * item.height);
  }

  /** The drawn items paired with the counter value each one takes, the counter starting at `n`. */
  function Numbered(items: seq<Item>, n: int): seq<(Item, int)> {
    if items == [] then []
    else if items[0].text != "" then [(items[0], n)] + Numbered(items[1..], n + 1)
    else Numbered(items[1..], n)
  }

  /** Entry k (from 0) is the k-th drawn item with number n + k. */
  lemma {:induction false} NumberedAt(items: seq<Item>, n: int)
    ensures |Numbered(items, n)| == |Emitted(items)|
    ensures forall k :: 0 <= k < |Emitted(items)| ==> Numbered(items, n)[k] == (Emitted(items)[k], n + k)
  {
    if items != [] {
      var rest := items[1..];
      if items[0].text == "" {
        NumberedAt(rest, n);
      } else {
        NumberedAt(rest, n + 1);
        assert Emitted(items) == [items[0]] + Emitted(rest);
        forall k | 1 <= k < |Emitted(items)| ensures Numbered(items, n)[k] == (Emitted(items)[k], n + k) {
          assert Numbered(items, n)[k] == Numbered(rest, n + 1)[k - 1];
        }
      }
    }
  }

  /** A text node for each numbered item. */
  function Render(ps: seq<(Item, int)>): (r: seq<Element>)
    ensures |r| == |ps| && forall k :: 0 <= k < |ps| ==> r[k] == TextNode(ps[k].0, ps[k].1)
  {
    seq(|ps|, k requires 0 <= k < |ps| => TextNode(ps[k].0, ps[k].1))
  }

  lemma RenderSnoc(ps: seq<(Item, int)>, p: (Item, int))
    ensures Render(ps + [p]) == Render(ps) + [TextNode(p.0, p.1)]
  {
    assert forall k :: 0 <= k < |ps| ==> (ps + [p])[k] == ps[k];
  }

  /** The text nodes of the drawn items, numbered from 1 in item order. */
  function TextNodes(items: seq<Item>): seq<Element> {
    Render(Numbered(items, 1))
  }

  /** Node k (from 0) draws the k-th drawn item and is numbered k + 1. */
  lemma TextNodesNumbered(items: seq<Item>)
    ensures |TextNodes(items)| == |Emitted(items)|
    ensures forall k :: 0 <= k < |Emitted(items)| ==> TextNodes(items)[k] == TextNode(Emitted(items)[k], 1 + k)
  {
    NumberedAt(items, 1);
    forall k | 0 <= k < |Emitted(items)| ensures TextNodes(items)[k] == TextNode(Emitted(items)[k], 1 + k) {
      TextNodeAt(items, k);
    }
  }

  lemma TextNodeAt(items: seq<Item>, k: nat)
    requires k < |Emitted(items)|
    ensures k < |TextNodes(items)| && TextNodes(items)[k] == TextNode(Emitted(items)[k], 1 + k)
  {
    NumberedAt(items, 1);
    var ps := Numbered(items, 1);
    var item, m := ps[k].0, ps[k].1;
    assert item == Emitted(items)[k] && m == 1 + k;
    assert TextNodes(items)[k] == TextNode(item, m);
  }

  function RootAttrs(width: int, height: int): map<string, string> {
    map[
      "xmlns" := SvgNs,
      "width" := IntToString(width),
      "height" := IntToString(height),
      "viewBox" := "0 0 " + IntToString(width) + " " + IntToString(height)]
  }

  /** The SVG document for the items on a canvas of the given size. */
  function SvgDocument(items: seq<Item>, width: int, height: int): Element {
    Element("svg", RootAttrs(width, height), None, TextNodes(items))
  }

  /** One loop step of `items_to_svg` on the numbering: the next item takes the counter when it has text. */
  lemma NumberedStep(items: seq<Item>, i: nat, n: int, drawn: seq<(Item, int)>)
    requires i < |items| && drawn + Numbered(items[i..], n) == Numbered(items, 1)
    ensures items[i].text != "" ==> (drawn + [(items[i], n)]) + Numbered(items[i + 1..], n + 1) == Numbered(items, 1)
    ensures items[i].text == "" ==> drawn + Numbered(items[i + 1..], n) == Numbered(items, 1)
  {
    assert items[i..][0] == items[i] && items[i..][1..] == items[i + 1..];
    if items[i].text != "" {
      assert Numbered(items[i..], n) == [(items[i], n)] + Numbered(items[i + 1..], n + 1);
      assert (drawn + [(items[i], n)]) + Numbered(items[i + 1..], n + 1) == drawn + Numbered(items[i..], n);
    }
  }

  /** When the loop has seen every item it has numbered them all. */
  lemma NumberedDone(items: seq<Item>, n: int, drawn: seq<(Item, int)>)
    requires drawn + Numbered(items[|items|..], n) == Numbered(items, 1)
    ensures drawn == Numbered(items, 1)
  {
    assert items[|items|..] == [];
    assert drawn + [] == drawn;
  }

  /**
   * `items_to_svg`: one text node per item with text, in item order, numbered by a counter
   * that only the drawn items advance.
   */
  method ItemsToSvg(items: seq<Item>, width: int, height: int) returns (svg: Element)
    ensures svg == SvgDocument(items, width, height)
    ensures |svg.children| == |Emitted(items)|
    ensures forall k :: 0 <= k < |svg.children| ==> svg.children[k] == TextNode(Emitted(items)[k], 1 + k)
  {
    var children: seq<Element> := [];
    var textCounter := 1;
    ghost var drawn: seq<(Item, int)> := [];
    var i := 0;
    while i < |items|
      invariant 0 <= i <= |items|
      invariant textCounter == |children| + 1
      invariant drawn + Numbered(items[i..], textCounter) == Numbered(items, 1)
      invariant children == Render(drawn)
    {
      var item := items[i];
      NumberedStep(items, i, textCounter, drawn);
      if item.text != "" {
        var node := TextNode(item, textCounter);
        RenderSnoc(drawn, (item, textCounter));
        drawn := drawn + [(item, textCounter)];
        children := children + [node];
        textCounter := textCounter + 1;
      }
      i := i + 1;
    }
    NumberedDone(items, textCounter, drawn);
    svg := Element("svg", RootAttrs(width, height), None, children);
    TextNodesNumbered(items);
  }

  /** The counter: an item with text is node number 1 + (how many items before it have text). */
  lemma NodeOfItem(items: seq<Item>, j: nat)
    requires j < |items| && items[j].text != ""
    ensures var k := |Emitted(items[..j])|;
      k < |TextNodes(items)| && TextNodes(items)[k] == TextNode(items[j], k + 1)
  {
    var k := |Emitted(items[..j])|;
    assert items == items[..j] + [items[j]] + items[j + 1..];
    EmittedAppend(items[..j] + [items[j]], items[j + 1..]);
    EmittedAppend(items[..j], [items[j]]);
    assert Emitted([items[j]]) == [items[j]] by {
      assert [items[j]][..0] == [];
    }
    assert Emitted(items)[k] == items[j];
    TextNodesNumbered(items);
  }

  /** No two nodes share an id. */
  lemma IdsDistinct(items: seq<Item>, k: nat, l: nat)
    requires k < l < |TextNodes(items)|
    ensures "id" in TextNodes(items)[k].attrs && "id" in TextNodes(items)[l].attrs
    ensures TextNodes(items)[k].attrs["id"] != TextNodes(items)[l].attrs["id"]
  {
    TextNodesNumbered(items);
    var a, b := IntToString(1 + k), IntToString(1 + l);
    assert TextNodes(items)[k].attrs["id"] == IdPrefix + a;
    assert TextNodes(items)[l].attrs["id"] == IdPrefix + b;
    assert (IdPrefix + a)[|IdPrefix|..] == a;
    assert (IdPrefix + b)[|IdPrefix|..] == b;
    if a == b {
      IntToStringInjective(1 + k, 1 + l);
    }
  }

  lemma SmallIntTexts()
    ensures IntToString(10) == "10" && IntToString(20) == "20" && IntToString(80) == "80"
  {
    assert NatToString(10) == NatToString(1) + [DigitChar(0)];
    assert NatToString(20) == NatToString(2) + [DigitChar(0)];
    assert NatToString(80) == NatToString(8) + [DigitChar(0)];
  }

  /** Integer text written as a literal reads back as that integer. */
  lemma ChildIntOfLiteral(t: string, n: int, default: int)
    requires t == IntToString(n)
    ensures ChildInt(Some(t), default) == n
  {
    ChildIntOfInt(n, default);
  }

  /** The geometry of the "Pump A" widget reads back as written; its name defaults to "". */
  lemma PumpLabelFields()
    ensures ChildInt(Some("10"), 0) == 10 && ChildInt(Some("20"), 0) == 20
    ensures ChildInt(Some("80"), 80) == 80 && ChildInt(Some("20"), 20) == 20
    ensures ChildText(Some("Pump A"), "") == "Pump A"
  {
    SmallIntTexts();
    ChildIntOfLiteral("10", 10, 0);
    ChildIntOfLiteral("20", 20, 0);
    ChildIntOfLiteral("80", 80, 80);
    ChildIntOfLiteral("20", 20, 20);
    PumpText();
  }

  lemma PumpText()
    ensures ChildText(Some("Pump A"), "") == "Pump A"
  {
    var text := "Pump A";
    assert text[0] == 'P' && text[|text| - 1] == 'A';
    StripUnpadded(text);
  }

  /** A static label "Pump A" at (10, 20), 80 by 20, with the default font and colour. */
  lemma PumpLabelItem()
    ensures ToItem(Widget(Some("label"), Some("10"), Some("20"), Some("80"), Some("20"), None, Some("Pump A"), None, None, None))
      == Some(Item(Label, "", "", "Pump A", 10, 20, 80, 20, DefaultFamily, IntSize(DefaultSize), Rgb(0, 0, 0)))
  {
    PumpLabelFields();
  }

  /** `str(35.0)`, the baseline of a 20-high item at y = 20, held as the quarter count 140. */
  lemma QuarterString140()
    ensures QuarterString(140) == "35.0"
  {
    assert DigitChar(3) == '3' && DigitChar(5) == '5';
    assert NatToString(35) == NatToString(3) + [DigitChar(5)] == "35";
  }

  lemma FillBlack()
    ensures Fill(Rgb(0, 0, 0)) == "rgb(0,0,0)"
  {
    assert IntToString(0) == "0";
  }

  /** Its node is drawn with baseline 20 + 0.75 * 20 = 35.0, in black, and carries no PV label. */
  lemma PumpLabelNode()
    ensures var e := TextNode(Item(Label, "", "", "Pump A", 10, 20, 80, 20, DefaultFamily, IntSize(DefaultSize), Rgb(0, 0, 0)), 1);
      && e.attrs["id"] == "text-1"
      && e.attrs["y"] == "35.0"
      && e.attrs["fill"] == "rgb(0,0,0)"
      && LabelAttr !in e.attrs
  {
    var item := Item(Label, "", "", "Pump A", 10, 20, 80, 20, DefaultFamily, IntSize(DefaultSize), Rgb(0, 0, 0));
    var e := TextNode(item, 1);
    assert 4 * item.y + 3 * item.height == 140;
    QuarterString140();
    FillBlack();
    assert IntToString(1) == "1";
    assert e.attrs["y"] == "35.0";
  }
}
