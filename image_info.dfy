/** The image viewer's status-bar item: the file-size unit setting, the size formatting,
    the metadata text of the status button, and the item state that follows the active
    pane item. */
module ImageViewer {
  import opened Wrappers
  import opened RustFmt

  type u32 = x: nat | x < 0x1_0000_0000
  type u64 = x: nat | x < 0x1_0000_0000_0000_0000

  // ---------------------------------------------------------------------------
  // The unit-type setting

  datatype ImageFileSizeUnitType = Binary | Decimal

  /** The settings key the unit type is stored under (`KEY`); recorded for reference. */
  const SettingsKey: string := "image_file_unit_type"

  /** The `#[default]` variant. */
  const DefaultUnitType: ImageFileSizeUnitType := Binary

  /** `load`: the merged settings when merging succeeded, `Binary` when it failed; it
      never reports an error. */
  function Load<E>(merged: Result<ImageFileSizeUnitType, E>): (r: Result<ImageFileSizeUnitType, E>)
    ensures r.Ok?
    ensures merged.Ok? ==> r.value == merged.value
    ensures merged.Err? ==> r.value == DefaultUnitType
  {
    match merged
    case Ok(u) => Ok(u)
    case Err(_) => Ok(Binary)
  }

  // ---------------------------------------------------------------------------
  // File-size formatting

  /** Which line of `format_file_size` produces the text: plain bytes, or `size / divisor`
      to one decimal place followed by "KB" or "MB". */
  datatype SizeLabel =
    | Bytes(count: u64)
    | Kilo(size: u64, divisor: nat)
    | Mega(size: u64, divisor: nat)
  {
    function Rank(): (r: nat) {
      match this
      case Bytes(_) => 0
      case Kilo(_, _) => 1
      case Mega(_, _) => 2
    }

    function Suffix(): (s: string) {
      match this
      case Bytes(_) => "B"
      case Kilo(_, _) => "KB"
      case Mega(_, _) => "MB"
    }

    function Size(): (s: u64) {
      match this
      case Bytes(n) => n
      case Kilo(s, _) => s
      case Mega(s, _) => s
    }

    function Divisor(): (d: nat) {
      match this
      case Bytes(_) => 1
      case Kilo(_, d) => d
      case Mega(_, d) => d
    }
  }

  /** The branch structure of `format_file_size`. */
  function SizeTier(size: u64, unit: ImageFileSizeUnitType): (l: SizeLabel) {
    match unit
    case Binary =>
      if size < 1024 then Bytes(size)
      else if size < 1024 * 1024 then Kilo(size, 1024)
      else Mega(size, 1024 * 1024)
    case Decimal =>
      if size < 1000 then Bytes(size)
      else if size < 1000 * 1000 then Kilo(size, 1000)
      else Mega(size, 1000 * 1000)
  }

  /** `format_file_size`. `oneDecimal(size, divisor)` stands for `{:.1}` applied to
      `size as f64 / divisor`, which the model leaves uninterpreted. */
  function FormatFileSize(size: u64, unit: ImageFileSizeUnitType, oneDecimal: (u64, nat) -> string): (t: string) {
    var tier := SizeTier(size, unit);
    match tier
    case Bytes(n) => FormatDecimal(n) + "B"
    case Kilo(s, d) => oneDecimal(s, d) + "KB"
    case Mega(s, d) => oneDecimal(s, d) + "MB"
  }

  function Base(unit: ImageFileSizeUnitType): (b: nat) {
    match unit
    case Binary => 1024
    case Decimal => 1000
  }

  function Pow(b: nat, k: nat): (p: nat) {
    if k == 0 then 1 else b * Pow(b, k - 1)
  }

  lemma BinaryTiers(size: u64, oneDecimal: (u64, nat) -> string)
    ensures size < 1024 ==> FormatFileSize(size, Binary, oneDecimal) == FormatDecimal(size) + "B"
    ensures 1024 <= size < 1048576 ==>
      SizeTier(size, Binary) == Kilo(size, 1024) &&
      FormatFileSize(size, Binary, oneDecimal) == oneDecimal(size, 1024) + "KB"
    ensures 1048576 <= size ==>
      SizeTier(size, Binary) == Mega(size, 1048576) &&
      FormatFileSize(size, Binary, oneDecimal) == oneDecimal(size, 1048576) + "MB"
  {
  }

  lemma DecimalTiers(size: u64, oneDecimal: (u64, nat) -> string)
    ensures size < 1000 ==> FormatFileSize(size, Decimal, oneDecimal) == FormatDecimal(size) + "B"
    ensures 1000 <= size < 1000000 ==>
      SizeTier(size, Decimal) == Kilo(size, 1000) &&
      FormatFileSize(size, Decimal, oneDecimal) == oneDecimal(size, 1000) + "KB"
    ensures 1000000 <= size ==>
      SizeTier(size, Decimal) == Mega(size, 1000000) &&
      FormatFileSize(size, Decimal, oneDecimal) == oneDecimal(size, 1000000) + "MB"
  {
  }

  /** The tier is the magnitude of the size in the unit's base, capped at mega: its divisor
      is base^rank, the largest such power not above the size (bytes for sizes below one
      base). The label always carries the size it was made from. */
  lemma TierIsMagnitude(size: u64, unit: ImageFileSizeUnitType)
    ensures var l, b := SizeTier(size, unit), Base(unit);
      l.Size() == size && l.Divisor() == Pow(b, l.Rank()) && l.Rank() <= 2 &&
      (l.Rank() == 0 || Pow(b, l.Rank()) <= size) &&
      (l.Rank() == 2 || size < Pow(b, l.Rank() + 1))
  {
    var b := Base(unit);
    assert Pow(b, 1) == b;
    assert Pow(b, 2) == b * b;
  }

  /** The text always ends in the tier's suffix; in the bytes tier the rest is exactly the
      decimal digits of the size, which read back as the size. */
  lemma FormattedSizeReadsBack(size: u64, unit: ImageFileSizeUnitType, oneDecimal: (u64, nat) -> string)
    ensures var t, sfx := FormatFileSize(size, unit, oneDecimal), SizeTier(size, unit).Suffix();
      |sfx| <= |t| && t[|t| - |sfx|..] == sfx
    ensures var t := FormatFileSize(size, unit, oneDecimal);
      size < Base(unit) ==>
        SizeTier(size, unit).Bytes? && AllDigits(t[..|t| - 1]) && DecimalValue(t[..|t| - 1]) == size
  {
    var t := FormatFileSize(size, unit, oneDecimal);
    match SizeTier(size, unit) {
      case Bytes(n) =>
        assert t == FormatDecimal(n) + "B";
        assert t[..|t| - 1] == FormatDecimal(size);
        DecimalRoundTrip(size);
      case Kilo(s, d) =>
        assert t == oneDecimal(s, d) + "KB";
      case Mega(s, d) =>
        assert t == oneDecimal(s, d) + "MB";
    }
  }

  /** For a fixed unit type a larger size never gets a smaller suffix. */
  lemma TierMonotone(s1: u64, s2: u64, unit: ImageFileSizeUnitType)
    requires s1 <= s2
    ensures SizeTier(s1, unit).Rank() <= SizeTier(s2, unit).Rank()
  {
  }

  /** For one size, decimal units never give a smaller suffix than binary units. */
  lemma DecimalTierNotSmaller(size: u64)
    ensures SizeTier(size, Binary).Rank() <= SizeTier(size, Decimal).Rank()
  {
  }

  // ---------------------------------------------------------------------------
  // The status text

  /** The five metadata fields of the item, as `render` reads them. */
  datatype Fields = Fields(
    width: Option<u32>,
    height: Option<u32>,
    fileSize: Option<u64>,
    format: Option<string>,
    colorType: Option<string>)

  /** The separator between components: space, bullet (U+2022), space. */
  const Separator: string := " \U{2022} "

  /** `width.and_then(|w| height.map(|h| format!("{}x{}", w, h)))`. */
  function Dimensions(width: Option<u32>, height: Option<u32>): (d: Option<string>)
    ensures d.Some? <==> width.Some? && height.Some?
  {
    match width
    case None => None
    case Some(w) =>
      match height
      case None => None
      case Some(h) => Some(FormatDecimal(w) + "x" + FormatDecimal(h))
  }

  /** The four components in display order: dimensions, size, colour type, format. */
  function Components(f: Fields, unit: ImageFileSizeUnitType, oneDecimal: (u64, nat) -> string): (cs: seq<Option<string>>)
    ensures |cs| == 4
  {
    [ Dimensions(f.width, f.height),
      match f.fileSize case None => None case Some(s) => Some(FormatFileSize(s, unit, oneDecimal)),
      f.colorType,
      f.format ]
  }

  function StatusText(f: Fields, unit: ImageFileSizeUnitType, oneDecimal: (u64, nat) -> string): (t: string) {
    Join(Flatten(Components(f, unit, oneDecimal)), Separator)
  }

  /** `div().when(!text.is_empty(), ...)`: the label of the button, if one is shown. */
  function StatusButton(text: string): (b: Option<string>)
    ensures b.Some? <==> text != ""
    ensures b.Some? ==> b.value == text
  {
    if text != "" then Some(text) else None
  }

  /** The dimensions text has one 'x', between the digits of the width and those of the
      height, which read back as the two numbers. */
  lemma DimensionsReadBack(w: u32, h: u32)
    ensures var t, k := Dimensions(Some(w), Some(h)).value, |FormatDecimal(w)|;
      0 < k < |t| - 1 && t[k] == 'x' &&
      (forall i :: 0 <= i < |t| && i != k ==> IsDigit(t[i])) &&
      AllDigits(t[..k]) && DecimalValue(t[..k]) == w &&
      AllDigits(t[k + 1..]) && DecimalValue(t[k + 1..]) == h
  {
    var t, k := Dimensions(Some(w), Some(h)).value, |FormatDecimal(w)|;
    assert t[..k] == FormatDecimal(w);
    assert t[k + 1..] == FormatDecimal(h);
    DecimalRoundTrip(w);
    DecimalRoundTrip(h);
  }

  /** Different dimensions never render as the same text. */
  lemma DimensionsInjective(w1: u32, h1: u32, w2: u32, h2: u32)
    requires Dimensions(Some(w1), Some(h1)) == Dimensions(Some(w2), Some(h2))
    ensures w1 == w2 && h1 == h2
  {
    DimensionsReadBack(w1, h1);
    DimensionsReadBack(w2, h2);
  }

  /** The dimensions and size components are never empty strings when present. */
  lemma FirstComponentsNonEmpty(f: Fields, unit: ImageFileSizeUnitType, oneDecimal: (u64, nat) -> string)
    ensures var cs := Components(f, unit, oneDecimal);
      (cs[0].Some? ==> cs[0].value != "") && (cs[1].Some? ==> cs[1].value != "")
  {
    if f.fileSize.Some? {
      FormattedSizeReadsBack(f.fileSize.value, unit, oneDecimal);
    }
  }

  /** The text is empty exactly when no component is present, or only one that is itself
      an empty string (which only the colour type or the format can be). */
  lemma StatusTextEmptyIff(f: Fields, unit: ImageFileSizeUnitType, oneDecimal: (u64, nat) -> string)
    ensures var parts := Flatten(Components(f, unit, oneDecimal));
      StatusText(f, unit, oneDecimal) == "" <==> parts == [] || parts == [""]
  {
    JoinEmptyIff(Flatten(Components(f, unit, oneDecimal)), Separator);
  }

  /** With non-empty colour-type and format strings, the button is shown exactly when at
      least one component is present. */
  lemma ButtonShownIff(f: Fields, unit: ImageFileSizeUnitType, oneDecimal: (u64, nat) -> string)
    requires f.colorType != Some("") && f.format != Some("")
    ensures StatusButton(StatusText(f, unit, oneDecimal)).Some? <==>
      (f.width.Some? && f.height.Some?) || f.fileSize.Some? || f.colorType.Some? || f.format.Some?
  {
    var cs := Components(f, unit, oneDecimal);
    StatusTextEmptyIff(f, unit, oneDecimal);
    FlattenEmptyIff(cs);
    FirstComponentsNonEmpty(f, unit, oneDecimal);
    FlattenMembers(cs, "");
    assert Some("") !in cs by {
      assert cs == [cs[0], cs[1], cs[2], cs[3]];
    }
    assert cs[0].Some? <==> f.width.Some? && f.height.Some?;
    assert cs[1].Some? <==> f.fileSize.Some?;
    assert cs[2] == f.colorType && cs[3] == f.format;
    assert (forall i :: 0 <= i < |cs| ==> cs[i].None?) <==>
      !((f.width.Some? && f.height.Some?) || f.fileSize.Some? || f.colorType.Some? || f.format.Some?);
  }

  /** The text begins with the first present component and ends with the last one: no
      leading or trailing separator. */
  lemma StatusTextEnds(f: Fields, unit: ImageFileSizeUnitType, oneDecimal: (u64, nat) -> string)
    ensures var parts, t := Flatten(Components(f, unit, oneDecimal)), StatusText(f, unit, oneDecimal);
      (parts == [] ==> t == "") &&
      (parts != [] ==> parts[0] <= t && |parts[|parts| - 1]| <= |t| && t[|t| - |parts[|parts| - 1]|..] == parts[|parts| - 1])
  {
    var parts := Flatten(Components(f, unit, oneDecimal));
    if parts != [] {
      JoinEnds(parts, Separator);
    }
  }

  /** With every field known the text lists all four components in order. */
  lemma StatusTextAllPresent(f: Fields, unit: ImageFileSizeUnitType, oneDecimal: (u64, nat) -> string)
    requires f.width.Some? && f.height.Some? && f.fileSize.Some? && f.colorType.Some? && f.format.Some?
    ensures StatusText(f, unit, oneDecimal) ==
      FormatDecimal(f.width.value) + "x" + FormatDecimal(f.height.value) + Separator +
      FormatFileSize(f.fileSize.value, unit, oneDecimal) + Separator +
      f.colorType.value + Separator + f.format.value
  {
    var cs := Components(f, unit, oneDecimal);
    assert cs == [cs[0]] + [cs[1]] + [cs[2]] + [cs[3]];
    FlattenAppend([cs[0]] + [cs[1]] + [cs[2]], [cs[3]]);
    FlattenAppend([cs[0]] + [cs[1]], [cs[2]]);
    FlattenAppend([cs[0]], [cs[1]]);
    var parts := Flatten(cs);
    assert parts == [cs[0].value, cs[1].value, cs[2].value, cs[3].value];
    assert parts[1..] == [cs[1].value, cs[2].value, cs[3].value];
    assert parts[1..][1..] == [cs[2].value, cs[3].value];
    assert parts[1..][1..][1..] == [cs[3].value];
    assert cs[0].value == FormatDecimal(f.width.value) + "x" + FormatDecimal(f.height.value);
    assert cs[1].value == FormatFileSize(f.fileSize.value, unit, oneDecimal);
    assert Join(parts[1..][1..], Separator) == cs[2].value + Separator + cs[3].value;
    assert Join(parts[1..], Separator) == cs[1].value + Separator + cs[2].value + Separator + cs[3].value;
  }

  // ---------------------------------------------------------------------------
  // The item state

  /** What the active image's `image_meta` holds; the colour type already rendered with
      its `to_string`. */
  datatype ImageMeta = ImageMeta(width: u32, height: u32, fileSize: u64, format: string, colorType: string)

  /** An image view: its entity identity and the metadata its image item currently holds. */
  datatype ImageView = ImageView(id: nat, meta: Option<ImageMeta>)

  /** A pane item, as far as the status item sees it: what `act_as::<ImageView>` answers. */
  datatype PaneItem = PaneItem(asImageView: Option<ImageView>)

  /** `active_pane_item.and_then(|item| item.act_as::<ImageView>(cx))`. */
  function ActiveImageView(item: Option<PaneItem>): (v: Option<ImageView>)
    ensures v.Some? <==> item.Some? && item.value.asImageView.Some?
    ensures v.Some? ==> v == item.value.asImageView
  {
    match item
    case None => None
    case Some(p) => p.asImageView
  }

  class ImageInfo {
    var width: Option<u32>
    var height: Option<u32>
    var fileSize: Option<u64>
    var format: Option<string>
    var colorType: Option<string>
    /** The observation of the active image view, by that view's identity; None when no
        subscription is held. */
    var observedImage: Option<nat>

    /** The five fields show exactly `meta`: all copied from it, or all cleared. */
    predicate Shows(meta: Option<ImageMeta>)
      reads this
    {
      match meta
      case None =>
        width == None && height == None && fileSize == None && format == None && colorType == None
      case Some(m) =>
        width == Some(m.width) && height == Some(m.height) && fileSize == Some(m.fileSize) &&
        format == Some(m.format) && colorType == Some(m.colorType)
    }

    /** The five fields are all known or all unknown. */
    predicate Coherent()
      reads this
    {
      width.Some? == height.Some? && height.Some? == fileSize.Some? &&
      fileSize.Some? == format.Some? && format.Some? == colorType.Some?
    }

    /** The metadata the fields hold, when they all hold something. */
    function Metadata(): (m: Option<ImageMeta>)
      reads this
    {
      if width.Some? && height.Some? && fileSize.Some? && format.Some? && colorType.Some?
      then Some(ImageMeta(width.value, height.value, fileSize.value, format.value, colorType.value))
      else None
    }

    function CurrentFields(): (f: Fields)
      reads this
    {
      Fields(width, height, fileSize, format, colorType)
    }

    /** The button label `render` produces for the given unit setting, if any. */
    function Render(unit: ImageFileSizeUnitType, oneDecimal: (u64, nat) -> string): (b: Option<string>)
      reads this
    {
      StatusButton(StatusText(CurrentFields(), unit, oneDecimal))
    }

    /** `new`: nothing known, nothing observed. */
    constructor ()
      ensures Shows(None) && observedImage == None
    {
      width, height, fileSize, format, colorType := None, None, None, None, None;
      observedImage := None;
    }

    /** `update_metadata`: all five fields from the view's metadata, or all cleared. */
    method UpdateMetadata(view: ImageView)
      modifies this
      ensures Shows(view.meta)
      ensures observedImage == old(observedImage)
    {
      match view.meta {
        case Some(m) =>
          width := Some(m.width);
          height := Some(m.height);
          fileSize := Some(m.fileSize);
          format := Some(m.format);
          colorType := Some(m.colorType);
        case None =>
          width := None;
          height := None;
          fileSize := None;
          format := None;
          colorType := None;
      }
    }

    /** `set_active_pane_item`: follow an image view (take its metadata and observe it), or
        clear everything and drop the observation. */
    method SetActivePaneItem(item: Option<PaneItem>)
      modifies this
      ensures match ActiveImageView(item)
        case Some(v) => Shows(v.meta) && observedImage == Some(v.id)
        case None => Shows(None) && observedImage == None
    {
      var active := ActiveImageView(item);
      match active {
        case Some(v) =>
          UpdateMetadata(v);
          observedImage := Some(v.id);
        case None =>
          width := None;
          height := None;
          fileSize := None;
          colorType := None;
          format := None;
          observedImage := None;
      }
    }

    /** The observation callback: the observed view changed, so its metadata is taken again. */
    method ObservedImageChanged(view: ImageView)
      requires observedImage == Some(view.id)
      modifies this
      ensures Shows(view.meta) && observedImage == Some(view.id)
    {
      UpdateMetadata(view);
    }
  }

  /** Showing some metadata is the same as holding coherent fields whose metadata it is. */
  lemma ShowsIff(info: ImageInfo, meta: Option<ImageMeta>)
    ensures info.Shows(meta) <==> info.Coherent() && info.Metadata() == meta
  {
  }

  /** After the status item has taken an image's metadata, the button is shown exactly when
      there is metadata, and then lists all four components in order. */
  lemma RenderAfterShows(info: ImageInfo, meta: Option<ImageMeta>, unit: ImageFileSizeUnitType, oneDecimal: (u64, nat) -> string)
    requires info.Shows(meta)
    ensures info.Render(unit, oneDecimal).Some? <==> meta.Some?
    ensures meta.Some? ==> info.Render(unit, oneDecimal) == Some(
      FormatDecimal(meta.value.width) + "x" + FormatDecimal(meta.value.height) + Separator +
      FormatFileSize(meta.value.fileSize, unit, oneDecimal) + Separator +
      meta.value.colorType + Separator + meta.value.format)
  {
    var f := info.CurrentFields();
    if meta.Some? {
      StatusTextAllPresent(f, unit, oneDecimal);
      assert |Separator| == 3;
    } else {
      StatusTextEmptyIff(f, unit, oneDecimal);
      FlattenEmptyIff(Components(f, unit, oneDecimal));
    }
  }
}
