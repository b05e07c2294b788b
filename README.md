# Image viewer status item, modelled in Dafny

This project models the image-metadata status item of the image viewer crate
(`crates/image_viewer/src/image_info.rs`). The item sits in the workspace status bar.
While the active pane item is an image view whose metadata is known, it shows one small button. The button's text
lists the image's dimensions, its file size, its colour type and its format.

The model has three modules:

- `Wrappers` (wrappers.dfy): `Option` and `Result`.
- `RustFmt` (rust_fmt.dfy): the standard-library behaviour the item relies on.
  This covers `{}` on an unsigned integer (`FormatDecimal`, with its inverse `DecimalValue`),
  `Iterator::flatten` over options (`Flatten`) and `join` on strings (`Join`).
- `ImageViewer` (image_info.dfy): the item itself.
  - The unit-type setting and its `load` fallback.
  - `format_file_size`: `SizeTier` picks the tier, `FormatFileSize` renders it.
  - The status text built by `render`: `Dimensions`, `Components`, `StatusText`, `StatusButton`.
  - The `ImageInfo` class. It has the five metadata fields and the observation of the active
    image view. Its methods are `UpdateMetadata` and `SetActivePaneItem`, plus the observation
    callback `ObservedImageChanged`.

These definitions transcribe the source, or the library calls it makes. The lemmas in the table below state their properties:

- `ImageViewer.SizeTier` and `ImageViewer.FormatFileSize`: `format_file_size` (crates/image_viewer/src/image_info.rs:76-97).
- `ImageViewer.Components`: the components array of `render` (crates/image_viewer/src/image_info.rs:104-110).
- `ImageViewer.StatusText`: the text of `render` (crates/image_viewer/src/image_info.rs:104-116).
- `ImageViewer.ImageInfo.Render`: `render` as a whole (crates/image_viewer/src/image_info.rs:100-121). It returns the label of the button, or `None` when no button is shown.
- `RustFmt.Flatten`: `into_iter().flatten().collect()` (crates/image_viewer/src/image_info.rs:112-115).
- `RustFmt.Join`: `.join(" • ")` (crates/image_viewer/src/image_info.rs:116).
- `ImageViewer.SettingsKey`: records the settings `KEY` (crates/image_viewer/src/image_info.rs:19), for reference only.

Inputs from the runtime are parameters:

- The unit type read from the settings global.
- The metadata of the active image (`ImageView.meta`).
- What `act_as::<ImageView>` answers for the active pane item (`PaneItem.asImageView`).

The subscription returned by `cx.observe` is modelled as `observedImage: Option<nat>`.
It holds the identity of the observed image view, or `None` when no subscription is held.

The `{:.1}` rendering of `size as f64 / divisor` is the function-valued parameter
`oneDecimal(size, divisor)`. Nothing is assumed about it. Everything else is proved exactly:
the tier, the divisor, the suffix and the digits of the byte tier.

One exact result differs from the informal reading "the text is empty exactly when every
component is absent". The code's text is also empty when the only present component is an
empty colour-type or format string (`StatusTextEmptyIff`). `ButtonShownIff` proves the
informal reading under the hypothesis that present colour-type and format strings are non-empty.
Dimensions and sizes are never empty strings (`FirstComponentsNonEmpty`).

## Model

| member | source | states |
|---|---|---|
| `ImageViewer.Load` | crates/image_viewer/src/image_info.rs:12-28 | Loading never fails. A successful merge is kept. A failed merge loads as the `#[default]` variant, `Binary`. |
| `RustFmt.FormatDecimal` | crates/image_viewer/src/image_info.rs:80 | The `{}` text of an integer is non-empty and made only of digits. It has no leading zero except for the number zero. |
| `RustFmt.DecimalRoundTrip` | crates/image_viewer/src/image_info.rs:80 | Reading the `{}` digits back gives the original number. |
| `RustFmt.DecimalInjective` | crates/image_viewer/src/image_info.rs:89 | Different numbers print as different digit strings. |
| `RustFmt.FlattenEmptyIff` | crates/image_viewer/src/image_info.rs:112-115 | Flattening yields nothing exactly when every option is absent. |
| `RustFmt.FlattenMembers` | crates/image_viewer/src/image_info.rs:112-115 | A value is in the flattened list exactly when some option holds it. |
| `RustFmt.FlattenAppend` | crates/image_viewer/src/image_info.rs:112-115 | Flattening keeps order: flattening a concatenation gives the concatenation of the flattened parts. |
| `RustFmt.JoinLength` | crates/image_viewer/src/image_info.rs:116 | A join of n parts is as long as the parts together plus n-1 separators. |
| `RustFmt.JoinEmptyIff` | crates/image_viewer/src/image_info.rs:116 | With a non-empty separator, the join is empty exactly when there are no parts or one empty part. |
| `RustFmt.JoinSnoc` | crates/image_viewer/src/image_info.rs:116 | Joining one more part appends one separator and that part. |
| `RustFmt.JoinEnds` | crates/image_viewer/src/image_info.rs:116 | The join begins with the first part and ends with the last: no leading or trailing separator. |
| `ImageViewer.BinaryTiers` | crates/image_viewer/src/image_info.rs:78-85 | In binary units: below 1024 the text is the size's digits then "B". From 1024 up to 1048576 it is the KB tier with divisor 1024. From 1048576 on it is the MB tier with divisor 1048576. |
| `ImageViewer.DecimalTiers` | crates/image_viewer/src/image_info.rs:87-95 | The same three-tier rule in decimal units, with thresholds and divisors 1000 and 1000000. |
| `ImageViewer.TierIsMagnitude` | crates/image_viewer/src/image_info.rs:76-97 | The divisor is base^rank, the largest power of the base not above the size, capped at rank 2. The label keeps the size it was given. |
| `ImageViewer.FormattedSizeReadsBack` | crates/image_viewer/src/image_info.rs:76-97 | The text always ends in the tier's suffix. Below one base unit, what precedes "B" is digits that read back as the size. |
| `ImageViewer.TierMonotone` | crates/image_viewer/src/image_info.rs:76-97 | For a fixed unit type, a larger size never gets a smaller suffix. |
| `ImageViewer.DecimalTierNotSmaller` | crates/image_viewer/src/image_info.rs:76-97 | For the same size, decimal units never give a smaller tier than binary units. |
| `ImageViewer.Dimensions` | crates/image_viewer/src/image_info.rs:105-106 | The dimensions component is present exactly when both width and height are known. |
| `ImageViewer.DimensionsReadBack` | crates/image_viewer/src/image_info.rs:105-106 | "{w}x{h}" has a single non-digit, an 'x' right after the width's digits. The two digit runs read back as w and h. |
| `ImageViewer.DimensionsInjective` | crates/image_viewer/src/image_info.rs:105-106 | Different dimensions never give the same text. |
| `ImageViewer.FirstComponentsNonEmpty` | crates/image_viewer/src/image_info.rs:104-107 | The dimensions and size components, when present, are never empty strings. |
| `ImageViewer.StatusTextEmptyIff` | crates/image_viewer/src/image_info.rs:104-116 | The text is empty exactly when no component is present, or only one and it is the empty string. |
| `ImageViewer.ButtonShownIff` | crates/image_viewer/src/image_info.rs:104-120 | When colour type and format are not empty strings, the button is shown exactly when some component is present. |
| `ImageViewer.StatusTextEnds` | crates/image_viewer/src/image_info.rs:104-116 | The text begins with the first present component and ends with the last one. With no component it is empty. |
| `ImageViewer.StatusTextAllPresent` | crates/image_viewer/src/image_info.rs:104-116 | With every field known, the text is dims, size, colour type and format in that order, joined by " • ". |
| `ImageViewer.StatusButton` | crates/image_viewer/src/image_info.rs:118-120 | A button is produced exactly when the text is non-empty, and it carries that text. |
| `ImageViewer.ActiveImageView` | crates/image_viewer/src/image_info.rs:130 | An image view is active exactly when there is a pane item that acts as an image view, and then it is that view. |
| `ImageViewer.ImageInfo.constructor` | crates/image_viewer/src/image_info.rs:41-55 | A new item knows no metadata and observes nothing. |
| `ImageViewer.ImageInfo.UpdateMetadata` | crates/image_viewer/src/image_info.rs:57-74 | All five fields are copied from the metadata when it is present, and all are cleared when it is absent. The subscription is unchanged. |
| `ImageViewer.ImageInfo.SetActivePaneItem` | crates/image_viewer/src/image_info.rs:125-144 | With an active image view: its metadata is applied and that view is observed. Otherwise all five fields are cleared and the subscription is dropped. |
| `ImageViewer.ImageInfo.ObservedImageChanged` | crates/image_viewer/src/image_info.rs:132-134 | When the observed view changes, its metadata is applied again and it stays observed. |
| `ImageViewer.ShowsIff` | crates/image_viewer/src/image_info.rs:60-72 | The fields show some metadata exactly when they are all known or all unknown, and the metadata they hold is that one. |
| `ImageViewer.RenderAfterShows` | crates/image_viewer/src/image_info.rs:100-121 | Once the item shows an image's metadata, the button is shown exactly when there is metadata. It then reads "{w}x{h} • size • colour type • format". |

## Left out

- `crates/gpui2/src/app/test_context.rs` is not part of this model. It is test-harness delegation into runtime code whose source is not available.
- `crates/image_viewer/src/image_viewer_settings.rs` is not part of this model. It holds only derives, a `Binary` default and a `load` that delegates to the JSON merge.
- The `{:.1}` rendering of `size as f64 / divisor` is floating-point formatting. It is the uninterpreted parameter `oneDecimal`.
- The JSON merge of the settings sources is library code. It is the `Result` passed to `Load`.
- `get_global` is the `unit` parameter. The settings registration guarded by `std::sync::Once` (image_info.rs:42-45) is runtime glue.
- `cx.notify()` at the end of both methods (image_info.rs:73, 143) is a runtime request to redraw. It changes no field of the item.
- How `cx.observe` delivers its callback is runtime behaviour. The model has the callback body as a method, and the subscription as the observed view's identity.
- `image_view.read(cx).image_item.read(cx)` and `act_as` are entity reads. They are inputs: `ImageView.meta` and `PaneItem.asImageView`.
- `update_metadata` stores `meta.color_type.to_string()` (image_info.rs:65). The `Display` text of the colour type is not in this file, so `ImageMeta.colorType` carries the rendered string.
- The button and label widgets (`div`, `Button`, `LabelSize`) are rendering. The model keeps only whether a button is produced and its text.
