# DICOM Support for WordPress — a Dafny model

This project models the server side of the WordPress "DICOM Support" plugin
(`DicomSupport.php`). The plugin lets a site accept `.dcm` uploads and show
DICOM images in posts through an embedded DWV viewer. The model covers:

- `upload_mimes`: the upload MIME filter, which maps the `dcm` extension to
  `application/dicom`.
- `create_dwv_html`:
  - the container id and the sizing style of the viewer layer;
  - the per-viewer launch script it queues on the `wpinit` handle;
  - the viewer markup;
  - the "Full screen" link, whose query it builds in a loop.
- `dcm_shortcode`: the `[dcm src="..."]` shortcode, which normalises a
  comma-separated `src` into a quoted URL list.
- `media_send_to_editor`: turns an inserted DICOM attachment into a `dcm`
  shortcode.
- `post_gallery`: replaces a gallery by one viewer over the gallery's DICOM
  attachments.
- The page-side launch barrier that the queued scripts set up. There are two
  page-wide flags, and every viewer registers two listeners that call its
  launch guard.

Files:

- `php_strings.dfy`: PHP byte strings. It defines `explode`, `implode`,
  `trim`, `strripos` for a one-byte needle, and `substr`, each with its PHP 8
  edge cases:
  - `explode(',', '')` is `['']`;
  - `strripos` returns `false` when the needle is absent;
  - `substr` returns `''` past the end.
- `php_values.dfy`: the values a width or height can take (null, an integer or
  a string), with `empty()`, PHP 8's loose comparison `$v != 0`, and the
  decimal text of an integer.
- `url_encoding.dfy`: PHP's `urlencode`, a decoder, and their round trip.
- `dicom_support.dfy`: the hooks. Host calls are inputs:
  - `id` is what `uniqid()` returned;
  - `viewerPage` is what `plugins_url('viewers/simplistic/index.html')`
    returned;
  - `getPosts` and `getPost` stand for `get_posts` and `get_post`.

  The host's script registry (`wp_enqueue_script`, `wp_add_inline_script`) is
  the class `ScriptQueue`. `create_dwv_html`, `dcm_shortcode` and
  `post_gallery` are methods that update it. The full-screen link is built by
  a method with the source's loop, proved against the function
  `FullScreenLinkOf`. The gallery's `foreach` is a loop, proved against
  `QuotedList`.
- `launch_barrier.dfy`: the join that the inline scripts implement in the
  browser.
  - The class `Page` holds the two flags, the registered viewers and the
    viewers started so far.
  - `Replay` is the pure reference: which viewers a run of events starts.

Behaviour the code has, which the model follows:

- The launch guard only checks that both flags are set. It does not remember
  that a viewer already started. An i18n "loaded" callback, or a
  DOMContentLoaded event, that arrives after both flags are set starts every
  viewer again (`RepeatedI18nStartsAgain`). So "the viewer starts exactly
  once" holds exactly when no signal arrives after the one that completes the
  pair (`ExactlyOnceIff`). Repeats before that point are harmless
  (`RepeatedDomBeforeI18nStartsOnce`), and each signal arriving once, in
  either order, starts every viewer once (`EachOrderStartsOnce`).
- The width and height test is `!empty($v) && $v != 0`. There is no
  positivity check, so negative sizes are written into the style
  (`LayerStyleOfIntegers`).
- Only the whole query is urlencoded, into the single `input` parameter. The
  `&file=` parameters of a multi-file link are inside that encoded value.
  `&dwvReplaceMode=void` is appended unencoded.
- A file name that contains `&` therefore splits into extra parameters once
  the query is decoded. `MultiEntryLink` assumes no name contains `&`.
- When an entry of a multi-file list has no `/`, `strripos` returns `false`,
  and `false + 1` is 1. The "directory" is then the first character and the
  file name is the rest (`DirBase`).

## Model

| member | source | states |
|---|---|---|
| DicomSupport.UploadMimes | DicomSupport.php:45-50 | the result has exactly the old keys plus `dcm`; `dcm` maps to `application/dicom`; every other entry is unchanged |
| DicomSupport.UploadMimesIdempotent | DicomSupport.php:45-50 | applying the filter twice gives the same list as applying it once |
| DicomSupport.ScriptQueue.Enqueue | DicomSupport.php:60-61 | `wp_enqueue_script` adds the handle to the enqueued set and leaves the inline scripts alone |
| DicomSupport.ScriptQueue.AddInlineScript | DicomSupport.php:105 | `wp_add_inline_script` appends exactly one (handle, script) entry and leaves the enqueued set alone |
| DicomSupport.LaunchNamesDistinct | DicomSupport.php:64-65 | two viewers get the same container id, start function or launch function iff their uniqid values are equal; within one viewer the start and launch names differ |
| DicomSupport.PrefixInjective | DicomSupport.php:65 | a prefixed name such as `"dwv-" . $id` determines its suffix |
| DicomSupport.LayerStyle | DicomSupport.php:66-71 | the style attribute is non-empty iff width and height are both non-empty and non-zero |
| DicomSupport.LayerStyleOfIntegers | DicomSupport.php:66-71 | non-zero integer sizes, negative ones included, are written out as their decimal text; a zero size gives no style; a non-zero integer written as a string styles the same as the integer |
| PhpValues.IntDimensionSetIffNonZero | DicomSupport.php:67-68 | an integer width or height passes the test iff it is non-zero, so there is no positivity check |
| PhpValues.ZerosLeaveUnset | DicomSupport.php:67-68 | a string of one or more `0` digits is a numeric zero and does not pass the test |
| PhpValues.NonZeroDecimalSetsDimension | DicomSupport.php:67-68 | the decimal text of a non-zero integer passes the test, as the integer does |
| PhpValues.LetterStringSetsDimension | DicomSupport.php:67-68 | under PHP 8 a string that starts with a letter is not equal to 0, so it passes the test |
| PhpValues.DecimalRoundTrip | DicomSupport.php:70 | reading back the digits of a number's text gives the number |
| PhpValues.IntToDecimalInjective | DicomSupport.php:70 | different integers have different decimal texts |
| DicomSupport.CreateDwvHtml | DicomSupport.php:58-143 | enqueues `dwv-simple` and `wpinit`; appends exactly one inline script to `wpinit`, whose container id and function names are built from the same id as the returned markup; returns the container, the layer style and the full-screen link |
| DicomSupport.FullScreenLink | DicomSupport.php:121-138 | the link the loop builds equals `FullScreenLinkOf`: one entry gives the unquoted entry; several give the first directory, `?`, the `file=` parameters joined by `&`, and the replace flag |
| DicomSupport.FileParams | DicomSupport.php:126-134 | one `file=<name>` per entry, in entry order, and each one is the file-name part of that entry with its quotes trimmed |
| DicomSupport.FullScreenLinkParameters | DicomSupport.php:121-138 | after the viewer page and `?`, splitting on `&` gives only `input=<encoded>`, plus `dwvReplaceMode=void` when there are several entries; decoding `input` gives back the query |
| DicomSupport.SingleEntryLink | DicomSupport.php:122-124 | a list without `,` gives `viewer?input=` plus the urlencoded, unquoted entry, with no replace flag |
| DicomSupport.MultiEntryLink | DicomSupport.php:125-136 | with a `,` there are at least two entries; the query is the first entry's directory, `?`, and parameters that split on `&` back into exactly the n `file=` parameters; the link ends with the unencoded `&dwvReplaceMode=void` |
| DicomSupport.DirBase | DicomSupport.php:126-133 | directory plus file name rebuild the entry; with a `/` the directory ends at the last `/` and the name holds none; without one (strripos false) the directory is the first byte |
| DicomSupport.QuotedListSnoc | DicomSupport.php:389-395 | the quoted list is empty iff there are no entries, and appending an entry appends `,` (when the list was non-empty) and the entry in quotes |
| DicomSupport.QuotedListRoundTrip | DicomSupport.php:121-131 | for entries without `,` or `"`, exploding the quoted list on `,` gives one quoted piece per entry, in order, and trimming `"` gives back each entry |
| DicomSupport.NormaliseSrcRoundTrip | DicomSupport.php:167-168 | for a `src` without `"`, the normalised list is the quoted list of the trimmed parts; it has as many entries as `src` has comma-separated parts, and unquoting entry i gives part i trimmed |
| DicomSupport.ShortcodeDefaultsUnsized | DicomSupport.php:157-164 | a missing or empty width or height defaults to 0 and leaves the viewer unsized |
| DicomSupport.DcmShortcode | DicomSupport.php:151-171 | an empty or missing `src` returns nothing and queues no script; otherwise the result is the viewer over the normalised list, with the attribute sizes or 0, and exactly one launch script is queued |
| DicomSupport.MediaSendToEditor | DicomSupport.php:222-231 | the result is `[dcm src="<url>"] ` iff the post is a DICOM attachment and its url is non-empty; otherwise it is the host's html, unchanged |
| DicomSupport.EmbedDirectiveShowsAttachment | DicomSupport.php:227 | a url without `,`, `"` or surrounding whitespace is normalised by the shortcode to that url in quotes, and its full-screen link carries exactly the encoded url |
| DicomSupport.ShortcodeAtts | DicomSupport.php:353-359 | the result has exactly the default keys, each with the given value when one is present and the default otherwise |
| DicomSupport.GalleryStyles | DicomSupport.php:361-375 | the size keywords `thumbnail`, `medium` and `large` give 100, 250 and 500 pixel squares; any other keyword leaves the viewer unsized |
| DicomSupport.PostGallery | DicomSupport.php:351-404 | no DICOM attachments give `''` and queue nothing; otherwise the result is one viewer over the attachments' guids, quoted and comma-joined in query order, with the size of the keyword, and exactly one launch script is queued |
| PhpStrings.Explode | DicomSupport.php:121 | `explode` yields one more piece than there are separators, and no piece contains the separator |
| PhpStrings.ImplodeExplode | DicomSupport.php:167-168 | imploding what `explode` produced gives back the string |
| PhpStrings.ExplodeImplode | DicomSupport.php:121 | exploding an imploded list whose parts hold no separator gives back the parts |
| PhpStrings.TrimCharsEnds | DicomSupport.php:123 | the trimmed string starts and ends outside the trimmed set |
| PhpStrings.TrimCharsIdempotent | DicomSupport.php:167 | trimming twice is trimming once |
| PhpStrings.LastIndexOf | DicomSupport.php:127 | `strripos` for a one-byte needle: `false` iff the byte is absent; otherwise the byte is at that index and nowhere after it |
| PhpStrings.SubstrSplit | DicomSupport.php:128-129 | `substr($s, 0, $n)` followed by `substr($s, $n)` rebuilds the string; the first part holds `n` bytes, or the whole string when it is shorter (past the end the second part is `''`) |
| UrlEncoding.UrlEncode | DicomSupport.php:138 | the encoding is between one and three times the input length, and every output byte is alphanumeric, `-`, `_`, `.`, `+` or `%` |
| UrlEncoding.UrlDecodeEncode | DicomSupport.php:138 | decoding the encoded query gives back the query |
| UrlEncoding.UrlEncodeInjective | DicomSupport.php:138 | different queries give different `input` values |
| UrlEncoding.UrlEncodeHasNoDelimiters | DicomSupport.php:138 | the encoded query contains no `&`, `=` or `?` |
| LaunchBarrier.Apply | DicomSupport.php:90-97 | a listener sets its own flag and leaves the other as it was |
| LaunchBarrier.Launched | DicomSupport.php:99-103 | one event starts either no viewer or every registered viewer, and starts them all iff both flags are set |
| LaunchBarrier.ReplayRepeats | DicomSupport.php:90-103 | a run of events starts the whole viewer list, in registration order, once for each event after which both flags are set |
| LaunchBarrier.ReplaySnoc | DicomSupport.php:90-103 | one more event appends, after `Replay` of the earlier events, what one dispatch of that event starts, and advances the flags by that event |
| LaunchBarrier.FlagsAfterMonotone | DicomSupport.php:90-97 | after a run, each flag is set iff it was set before or its event occurred |
| LaunchBarrier.SomeLaunchIff | DicomSupport.php:99-103 | some event launches iff the run is non-empty and both flags are set at its end |
| LaunchBarrier.ReadyStays | DicomSupport.php:99-103 | once both flags are set they stay set |
| LaunchBarrier.LaunchesSnoc | DicomSupport.php:90-103 | one more event adds one launch exactly when both flags are set after it, and advances the flags by that event |
| LaunchBarrier.ExactlyOnceIff | DicomSupport.php:90-103 | from a fresh page, a run of events launches exactly once iff the guard did not hold before its last event and holds after it, i.e. no signal arrives after the one that completes the pair |
| LaunchBarrier.NoStartWithoutBothEvents | DicomSupport.php:90-103 | from a fresh page, some viewer starts iff there is a viewer and both DOMContentLoaded and the i18n callback occurred |
| LaunchBarrier.EachOrderStartsOnce | DicomSupport.php:90-103 | both signals once each, in either order, start every viewer exactly once |
| LaunchBarrier.RepeatedDomBeforeI18nStartsOnce | DicomSupport.php:90-103 | DOMContentLoaded twice and then the i18n callback start every viewer once |
| LaunchBarrier.RepeatedI18nStartsAgain | DicomSupport.php:90-103 | an i18n callback that repeats after both flags are set starts every viewer a second time |
| LaunchBarrier.Page.constructor | DicomSupport.php:209-211 | the page starts with both flags false, no viewers and nothing started |
| LaunchBarrier.Page.AddViewer | DicomSupport.php:90-103 | running one viewer's inline script registers its listeners and changes no flag |
| LaunchBarrier.Page.Dispatch | DicomSupport.php:90-103 | an event runs every viewer's listener in registration order: the flag is set (when any listener exists), and `started` grows by exactly what `Launched` gives for the new flags |
| LaunchBarrier.LoadPage | DicomSupport.php:90-103 | a fresh page that registers the viewers and then receives a run of events one `Dispatch` at a time starts exactly `Replay` of that run, so every lemma about `Replay` holds of the page |

## Left out

- `admin_print_footer_scripts`: media-manager JavaScript printed into the admin page. It is browser code with no server-side logic.
- `wp_enqueue_scripts`: the script registrations and their dependency graph, the `wp_localize_script` data, and the `dwv.wp.init()` call are host and browser configuration. Only the two flags its inline script declares are modelled, as `Page.constructor`.
- `wpinit.js`, the DWV library and the simplistic viewer page: browser code outside the plugin's PHP.
- The text of the inline launch script is modelled as a `LaunchScript` record. The record holds the two function names, the container id and the URL list. The app configuration literals (tools, GUI, mobile flag) are not modelled.
- The HTML template's whitespace and comments are left out; `Render` keeps the elements, attributes and text in order.
- ShortcodeAtts: the `shortcode_atts_gallery` filter, which WordPress applies because `post_gallery` passes `'gallery'` as the third argument, is not modelled; the result is the plain merge of defaults and attributes, so `PostGallery` holds only when no plugin hooks that filter.
- Host functions are inputs: `uniqid`, `plugins_url`, `get_posts`, `get_post`, and the ordering and filtering that `get_posts` applies.
- The gallery's `$output` and `$instance` arguments are accepted and ignored, as in the source. So is the shortcode's `$content`.
- PHP 7 loose comparison (`"abc" == 0` is true there) is not modelled; the model follows PHP 8.
- Numeric strings whose value underflows to zero (such as `"1e-999"`, which PHP 8 compares equal to 0) are treated as non-zero, so they set a width or height.
- PHP array key order in `upload_mimes` is not modelled. The mime list is a map.
- A shortcode used with no attributes, where WordPress passes `''` instead of an array, is modelled as an empty attribute map. `empty()` treats both the same way.
- `get_post` returning `null` is modelled as `None`. The source reads `->post_mime_type` on it, which PHP 8 warns about and treats as `null`. Either way the html is unchanged.
- Listeners registered after an event has already fired, and the browser's event-loop timing, are not modelled. `Page` assumes every viewer is registered before the events it receives.
- MultiEntryLink: requires that no file name contains `&`. With such a name, the decoded query splits into extra parameters, which is the code's behaviour.
