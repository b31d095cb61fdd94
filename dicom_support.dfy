/** The WordPress hooks of the DICOM Support plugin: the upload MIME filter, the
    'dcm' shortcode, the viewer assembly with its full-screen link, the
    media-to-editor filter and the gallery override.

    Host calls are inputs: `id` is what uniqid() returned, `viewerPage` what
    plugins_url('viewers/simplistic/index.html') returned, `getPosts` and
    `getPost` stand for get_posts() and get_post(). The host's script registry,
    which wp_enqueue_script and wp_add_inline_script update, is a ScriptQueue. */
module DicomSupport {
  import opened PhpStrings
  import opened PhpValues
  import opened UrlEncoding

  const DicomMimeType: PhpString := "application/dicom"

  /** A shortcode's or an attachment's attributes, as the host passes them. */
  type Attributes = map<PhpString, PhpString>

  /** $atts[$key]: the attribute's string, or null when it is missing. */
  function Attr(atts: Attributes, key: PhpString): PhpValue
  {
    if key in atts then Str(atts[key]) else Null
  }

  // ---------------------------------------------------------------------------
  // the fixed text the plugin writes

  const ContainerIdPrefix: PhpString := "dwv-"
  const StartAppPrefix: PhpString := "startApp"
  const LaunchAppPrefix: PhpString := "launchApp"
  const StyleOpen: PhpString := " style=\"width:"
  const StyleMid: PhpString := "px;height:"
  const StyleClose: PhpString := "px\""
  const QuoteMark: PhpString := "\""
  const QuotedSeparator: PhpString := "\",\""
  const QueryMark: PhpString := "?"
  const ParamSeparator: PhpString := "&"
  const ListSeparator: PhpString := ","
  const ReplaceModeFlag: PhpString := ParamSeparator + ReplaceModeParam
  const FileKey: PhpString := "file="
  const InputKey: PhpString := "input="
  const ReplaceModeParam: PhpString := "dwvReplaceMode=void"
  const EmbedOpen: PhpString := "[dcm src=\""
  const EmbedClose: PhpString := "\"] "
  const ContainerOpen: PhpString := "<div id=\""
  const ToolbarDiv: PhpString := "\"><div class=\"toolbar\"></div>"
  const LayerOpen: PhpString := "<div class=\"layerContainer\""
  const CanvasOpen: PhpString := "><canvas class=\"imageLayer\">"
  const CanvasFallback: PhpString := "Only for HTML5 compatible browsers..."
  const LayerClose: PhpString := "</canvas></div></div>"
  const AnchorOpen: PhpString := "<small><a href=\""
  const AnchorTarget: PhpString := "\" target=\"_blank\">"
  const AnchorClose: PhpString := "Full screen</a></small>"

  // ---------------------------------------------------------------------------
  // upload_mimes

  /** The upload MIME filter: the list with 'dcm' mapped to the DICOM type. */
  function UploadMimes(mimeTypes: map<PhpString, PhpString>): (r: map<PhpString, PhpString>)
    ensures r.Keys == mimeTypes.Keys + {"dcm"}
    ensures r["dcm"] == DicomMimeType
    ensures forall k :: k in mimeTypes && k != "dcm" ==> r[k] == mimeTypes[k]
  {
    mimeTypes["dcm" := DicomMimeType]
  }

  /** Running the filter twice changes nothing more than running it once. */
  lemma UploadMimesIdempotent(mimeTypes: map<PhpString, PhpString>)
    ensures UploadMimes(UploadMimes(mimeTypes)) == UploadMimes(mimeTypes)
  {
  }

  // ---------------------------------------------------------------------------
  // the host's script registry

  const WpInitHandle: PhpString := "wpinit"
  const SimpleViewerHandle: PhpString := "dwv-simple"

  /** The per-viewer launch script: the names of its two functions, the
      container it binds the viewer to, and the quoted URL list it loads. */
  datatype LaunchScript = LaunchScript(startApp: PhpString, launchApp: PhpString, containerDivId: PhpString, urls: PhpString)

  datatype InlineScript = InlineScript(handle: PhpString, script: LaunchScript)

  /** The page's script registry: the handles enqueued so far and the inline
      scripts attached to handles, in the order they were added. */
  class ScriptQueue {
    var enqueued: set<PhpString>
    var inline: seq<InlineScript>

    constructor ()
      ensures enqueued == {} && inline == []
    {
      enqueued := {};
      inline := [];
    }

    /** wp_enqueue_script($handle). */
    method Enqueue(handle: PhpString)
      modifies this
      ensures enqueued == old(enqueued) + {handle}
      ensures inline == old(inline)
    {
      enqueued := enqueued + {handle};
    }

    /** wp_add_inline_script($handle, $script). */
    method AddInlineScript(handle: PhpString, script: LaunchScript)
      modifies this
      ensures inline == old(inline) + [InlineScript(handle, script)]
      ensures enqueued == old(enqueued)
    {
      inline := inline + [InlineScript(handle, script)];
    }
  }

  // ---------------------------------------------------------------------------
  // create_dwv_html: ids, style, script, full-screen link

  function ContainerDivId(id: PhpString): PhpString
  {
    ContainerIdPrefix + id
  }

  function LaunchScriptFor(id: PhpString, urls: PhpString): LaunchScript
  {
    LaunchScript(StartAppPrefix + id, LaunchAppPrefix + id, ContainerDivId(id), urls)
  }

  /** Prefixing is injective: a prefixed name gives back its suffix. */
  lemma PrefixInjective(p: PhpString, a: PhpString, b: PhpString)
    requires p + a == p + b
    ensures a == b
  {
    assert a == (p + a)[|p|..];
    assert b == (p + b)[|p|..];
  }

  /** Viewers built with different ids share no container id and no function
      name, and within one viewer the two function names differ. */
  lemma LaunchNamesDistinct(id1: PhpString, id2: PhpString, urls1: PhpString, urls2: PhpString)
    ensures var a, b := LaunchScriptFor(id1, urls1), LaunchScriptFor(id2, urls2);
      && (a.startApp == b.startApp <==> id1 == id2)
      && (a.launchApp == b.launchApp <==> id1 == id2)
      && (a.containerDivId == b.containerDivId <==> id1 == id2)
      && a.startApp != b.launchApp
  {
    var a, b := LaunchScriptFor(id1, urls1), LaunchScriptFor(id2, urls2);
    if a.startApp == b.startApp {
      PrefixInjective(StartAppPrefix, id1, id2);
    }
    if a.launchApp == b.launchApp {
      PrefixInjective(LaunchAppPrefix, id1, id2);
    }
    if a.containerDivId == b.containerDivId {
      PrefixInjective(ContainerIdPrefix, id1, id2);
    }
    assert a.startApp[1] == 't' && b.launchApp[1] == 'a';
  }

  /** ' style="width:<w>px;height:<h>px"'. */
  function PixelStyle(w: PhpString, h: PhpString): PhpString
  {
    StyleOpen + w + StyleMid + h + StyleClose
  }

  /** The style attribute of the layer container: present only when width and
      height are both non-empty and non-zero; no check that they are positive. */
  function LayerStyle(width: PhpValue, height: PhpValue): (style: PhpString)
    ensures style != [] <==> IsSetDimension(width) && IsSetDimension(height)
  {
    if IsSetDimension(width) && IsSetDimension(height) then
      PixelStyle(ToText(width), ToText(height))
    else []
  }

  /** Integer sizes: a non-zero pair (negative included) is written out in
      pixels, and a shortcode attribute spelling the same integers sizes the
      container identically; a zero in either leaves it unsized. */
  lemma LayerStyleOfIntegers(w: int, h: int)
    ensures w != 0 && h != 0 ==>
      LayerStyle(Int(w), Int(h)) == PixelStyle(IntToDecimal(w), IntToDecimal(h))
      && LayerStyle(Str(IntToDecimal(w)), Str(IntToDecimal(h))) == LayerStyle(Int(w), Int(h))
    ensures w == 0 || h == 0 ==> LayerStyle(Int(w), Int(h)) == []
  {
    if w != 0 && h != 0 {
      NonZeroDecimalSetsDimension(w);
      NonZeroDecimalSetsDimension(h);
    }
  }

  /** The "last slash + 1" cut of strripos: after the last '/', or 1 when the
      entry has no '/' (strripos returns false and false + 1 == 1). */
  function SplitPoint(e: PhpString): nat
  {
    match LastIndexOf(e, '/')
    case Some(p) => p + 1
    case None => 1
  }

  /** substr($e, 0, $pos + 1): the directory part of an entry. */
  function Dir(e: PhpString): PhpString
  {
    SubstrPrefix(e, SplitPoint(e))
  }

  /** substr($e, $pos + 1): the file-name part of an entry. */
  function Base(e: PhpString): PhpString
  {
    SubstrFrom(e, SplitPoint(e))
  }

  /** Directory and file name always rebuild the entry. With a '/', the
      directory ends at the last '/' and the name holds none; without one,
      the "directory" is the first byte and the name is the rest. */
  lemma DirBase(e: PhpString)
    ensures Dir(e) + Base(e) == e
    ensures '/' in e ==> |Dir(e)| >= 1 && Dir(e)[|Dir(e)| - 1] == '/' && '/' !in Base(e)
    ensures '/' !in e && e != [] ==> Dir(e) == [e[0]] && Base(e) == e[1..]
  {
    if '/' in e {
      var p := LastIndexOf(e, '/').value;
      assert Dir(e) == e[..p + 1] && Base(e) == e[p + 1..];
    } else if e != [] {
      assert Dir(e) == e[..1];
    }
  }

  /** trim($element, '"'). */
  function Unquote(e: PhpString): PhpString
  {
    TrimChars(e, {'"'})
  }

  /** "file=<name>" for one entry of the list. */
  function FileParam(entry: PhpString): PhpString
  {
    FileKey + Base(Unquote(entry))
  }

  /** The file parameters of the full-screen query, one per entry, in order. */
  function FileParams(list: seq<PhpString>): (params: seq<PhpString>)
    ensures |params| == |list|
    ensures forall i :: 0 <= i < |list| ==> params[i] == FileParam(list[i])
    decreases |list|
  {
    if list == [] then []
    else
      var init := list[..|list| - 1];
      assert forall i :: 0 <= i < |init| ==> init[i] == list[i];
      FileParams(init) + [FileParam(list[|list| - 1])]
  }

  /** The query the full-screen link carries before encoding: the single entry
      itself, or the first entry's directory, '?' and the file parameters
      joined by '&'. */
  function LinkQuery(list: seq<PhpString>): PhpString
    requires |list| >= 1
  {
    if |list| == 1 then Unquote(list[0])
    else Dir(Unquote(list[0])) + QueryMark + Implode(ParamSeparator, FileParams(list))
  }

  /** The full-screen link for a quoted URL list: the query urlencoded into
      `input`, followed, for several entries, by the unencoded replace flag. */
  function FullScreenLinkOf(urls: PhpString, viewerPage: PhpString): PhpString
  {
    var list := Explode(',', urls);
    viewerPage + QueryMark + InputKey + UrlEncode(LinkQuery(list)) + (if |list| == 1 then [] else ReplaceModeFlag)
  }

  /** The query after the first entry: its directory, '?' and its file parameter. */
  lemma FileQueryFirst(list: seq<PhpString>)
    requires |list| >= 1
    ensures var e := Unquote(list[0]);
      Dir(e) + QueryMark + FileKey + Base(e) == Dir(e) + QueryMark + Implode(ParamSeparator, FileParams(list[..1]))
  {
    assert list[..1][..0] == list[..0];
    assert FileParams(list[..1]) == [FileParam(list[0])];
  }

  /** Appending '&' and the next entry's file parameter extends the joined parameters by one. */
  lemma FileQueryStep(head: PhpString, list: seq<PhpString>, i: nat)
    requires 1 <= i < |list|
    ensures head + Implode(ParamSeparator, FileParams(list[..i])) + ParamSeparator + FileKey + Base(Unquote(list[i]))
      == head + Implode(ParamSeparator, FileParams(list[..i + 1]))
  {
    var done := FileParams(list[..i]);
    assert list[..i + 1][..i] == list[..i];
    assert FileParams(list[..i + 1]) == done + [FileParam(list[i])];
    ImplodeSnoc(ParamSeparator, done, FileParam(list[i]));
    var joined := Implode(ParamSeparator, done);
    AppendRegroup(head, joined, ParamSeparator, FileKey, Base(Unquote(list[i])));
  }

  lemma AppendRegroup(a: PhpString, b: PhpString, c: PhpString, d: PhpString, e: PhpString)
    ensures a + b + c + d + e == a + (b + c + (d + e))
  {
  }

  /** The 'full screen' link of create_dwv_html, built as the source builds it. */
  method FullScreenLink(urls: PhpString, viewerPage: PhpString) returns (link: PhpString)
    ensures link == FullScreenLinkOf(urls, viewerPage)
  {
    var list := Explode(',', urls);
    var query: PhpString;
    var extra: PhpString;
    if |list| == 1 {
      ImplodeExplode(',', urls);
      query := Unquote(urls);
      extra := [];
    } else {
      var element := Unquote(list[0]);
      query := Dir(element);
      query := query + QueryMark + FileKey + Base(element);
      FileQueryFirst(list);
      var i := 1;
      while i < |list|
        invariant 1 <= i <= |list|
        invariant query == Dir(Unquote(list[0])) + QueryMark + Implode(ParamSeparator, FileParams(list[..i]))
      {
        FileQueryStep(Dir(Unquote(list[0])) + QueryMark, list, i);
        element := Unquote(list[i]);
        query := query + ParamSeparator + FileKey + Base(element);
        i := i + 1;
      }
      assert list[..i] == list;
      extra := ReplaceModeFlag;
    }
    link := viewerPage + QueryMark + InputKey + UrlEncode(query) + extra;
  }

  /** The link's query string, split on '&' as a browser does, holds only the
      `input` parameter, plus the replace flag when there are several entries;
      decoding `input` gives back the query, so no entry can inject parameters. */
  lemma FullScreenLinkParameters(urls: PhpString, viewerPage: PhpString)
    ensures var list := Explode(',', urls);
      var link := FullScreenLinkOf(urls, viewerPage);
      var encoded := UrlEncode(LinkQuery(list));
      && link[..|viewerPage| + 1] == viewerPage + QueryMark
      && (|list| == 1 ==> Explode('&', link[|viewerPage| + 1..]) == [InputKey + encoded])
      && (|list| > 1 ==> Explode('&', link[|viewerPage| + 1..]) == [InputKey + encoded, ReplaceModeParam])
      && UrlDecode(encoded) == LinkQuery(list)
  {
    var list := Explode(',', urls);
    var query := LinkQuery(list);
    UrlDecodeEncode(query);
    var extra: PhpString := if |list| == 1 then [] else ReplaceModeFlag;
    assert FullScreenLinkOf(urls, viewerPage) == viewerPage + QueryMark + InputKey + UrlEncode(query) + extra;
    LinkSplitsAfterPage(viewerPage, query, extra);
    if |list| == 1 {
      assert InputKey + UrlEncode(query) + extra == InputKey + UrlEncode(query);
      SingleInputParameter(query);
    } else {
      InputAndReplaceModeParameters(query);
    }
  }

  /** The link is the viewer page, '?', and then the parameters. */
  lemma LinkSplitsAfterPage(viewerPage: PhpString, query: PhpString, extra: PhpString)
    ensures var link := viewerPage + QueryMark + InputKey + UrlEncode(query) + extra;
      && link[..|viewerPage| + 1] == viewerPage + QueryMark
      && link[|viewerPage| + 1..] == InputKey + UrlEncode(query) + extra
  {
  }

  /** The input parameter holds no '&'. */
  lemma InputParameterIsOneParameter(query: PhpString)
    ensures '&' !in InputKey + UrlEncode(query)
  {
    UrlEncodeHasNoDelimiters(query);
  }

  lemma SingleInputParameter(query: PhpString)
    ensures Explode('&', InputKey + UrlEncode(query)) == [InputKey + UrlEncode(query)]
  {
    InputParameterIsOneParameter(query);
    ExplodeWithoutSeparator('&', InputKey + UrlEncode(query));
  }

  /** The input parameter and the replace flag split into exactly two parameters. */
  lemma InputAndReplaceModeParameters(query: PhpString)
    ensures Explode('&', InputKey + UrlEncode(query) + ReplaceModeFlag) == [InputKey + UrlEncode(query), ReplaceModeParam]
  {
    var input := InputKey + UrlEncode(query);
    InputParameterIsOneParameter(query);
    var amp: Byte := '&';
    assert ParamSeparator == [amp];
    assert input + ReplaceModeFlag == input + [amp] + ReplaceModeParam;
    ExplodeCons(amp, input, ReplaceModeParam);
    ReplaceModeParamIsOneParameter();
    ExplodeWithoutSeparator('&', ReplaceModeParam);
  }

  lemma ReplaceModeParamIsOneParameter()
    ensures '&' !in ReplaceModeParam
  {
  }

  /** With one entry the link carries the entry, unquoted and encoded, and no
      replace flag. */
  lemma SingleEntryLink(urls: PhpString, viewerPage: PhpString)
    requires ',' !in urls
    ensures FullScreenLinkOf(urls, viewerPage) == viewerPage + QueryMark + InputKey + UrlEncode(Unquote(urls))
  {
    ExplodeWithoutSeparator(',', urls);
  }

  /** With n > 1 entries whose names hold no '&', the query is the first
      directory, '?', and parameters that split on '&' into exactly the n
      "file=<name>" parameters in entry order, and the link ends with the
      unencoded replace flag. */
  lemma MultiEntryLink(urls: PhpString, viewerPage: PhpString)
    requires ',' in urls
    requires forall i :: 0 <= i < |Explode(',', urls)| ==> '&' !in Base(Unquote(Explode(',', urls)[i]))
    ensures var list := Explode(',', urls);
      && |list| > 1
      && LinkQuery(list) == Dir(Unquote(list[0])) + QueryMark + Implode(ParamSeparator, FileParams(list))
      && Explode('&', Implode(ParamSeparator, FileParams(list))) == FileParams(list)
      && var link := FullScreenLinkOf(urls, viewerPage);
         link[|link| - |ReplaceModeFlag|..] == ReplaceModeFlag
  {
    var list := Explode(',', urls);
    FileParamsSplit(list);
    var link := FullScreenLinkOf(urls, viewerPage);
    var front := viewerPage + QueryMark + InputKey + UrlEncode(LinkQuery(list));
    assert link == front + ReplaceModeFlag;
  }

  /** File parameters whose names hold no '&' split back apart on '&'. */
  lemma FileParamsSplit(list: seq<PhpString>)
    requires |list| >= 1
    requires forall i :: 0 <= i < |list| ==> '&' !in Base(Unquote(list[i]))
    ensures Explode('&', Implode(ParamSeparator, FileParams(list))) == FileParams(list)
  {
    var params := FileParams(list);
    forall i | 0 <= i < |params|
      ensures '&' !in params[i]
    {
      FileParamWithoutAmpersand(list[i]);
    }
    var amp: Byte := '&';
    assert ParamSeparator == [amp];
    ExplodeImplode(amp, params);
  }

  lemma FileParamWithoutAmpersand(entry: PhpString)
    requires '&' !in Base(Unquote(entry))
    ensures '&' !in FileParam(entry)
  {
    var b := Base(Unquote(entry));
    assert forall k :: 0 <= k < |FileKey| ==> FileKey[k] != '&';
    assert FileParam(entry) == FileKey + b;
  }

  // ---------------------------------------------------------------------------
  // the rendered viewer

  /** What create_dwv_html returns, without the template's whitespace: the
      container with its toolbar and sized layer, then the full-screen anchor. */
  datatype ViewerMarkup = ViewerMarkup(containerDivId: PhpString, layerStyle: PhpString, fullScreenLink: PhpString)

  function Viewer(urls: PhpString, width: PhpValue, height: PhpValue, id: PhpString, viewerPage: PhpString): ViewerMarkup
  {
    ViewerMarkup(ContainerDivId(id), LayerStyle(width, height), FullScreenLinkOf(urls, viewerPage))
  }

  function Render(m: ViewerMarkup): PhpString
  {
    ContainerOpen + m.containerDivId + ToolbarDiv + LayerOpen + m.layerStyle
    + CanvasOpen + CanvasFallback + LayerClose
    + AnchorOpen + m.fullScreenLink + AnchorTarget + AnchorClose
  }

  /** create_dwv_html: enqueue the viewer scripts, queue one launch script on
      'wpinit', and return the viewer markup. */
  method CreateDwvHtml(queue: ScriptQueue, urls: PhpString, width: PhpValue, height: PhpValue, id: PhpString, viewerPage: PhpString)
    returns (html: PhpString)
    modifies queue
    ensures queue.enqueued == old(queue.enqueued) + {SimpleViewerHandle, WpInitHandle}
    ensures queue.inline == old(queue.inline) + [InlineScript(WpInitHandle, LaunchScriptFor(id, urls))]
    ensures html == Render(Viewer(urls, width, height, id, viewerPage))
  {
    queue.Enqueue(SimpleViewerHandle);
    queue.Enqueue(WpInitHandle);
    var containerDivId := ContainerDivId(id);
    var style := LayerStyle(width, height);
    queue.AddInlineScript(WpInitHandle, LaunchScript(StartAppPrefix + id, LaunchAppPrefix + id, containerDivId, urls));
    var link := FullScreenLink(urls, viewerPage);
    html := Render(ViewerMarkup(containerDivId, style, link));
  }

  // ---------------------------------------------------------------------------
  // the quoted URL list shared by the shortcode and the gallery

  function Quote(e: PhpString): PhpString
  {
    QuoteMark + e + QuoteMark
  }

  function Quoted(entries: seq<PhpString>): (q: seq<PhpString>)
    ensures |q| == |entries|
  {
    seq(|entries|, i requires 0 <= i < |entries| => Quote(entries[i]))
  }

  /** The list literal "e0","e1",... that create_dwv_html receives. */
  function QuotedList(entries: seq<PhpString>): PhpString
  {
    Implode(",", Quoted(entries))
  }

  /** The list literal is empty exactly for no entries, and grows by ',' and one
      quoted entry per appended entry (the gallery's accumulation). */
  lemma QuotedListSnoc(entries: seq<PhpString>, e: PhpString)
    ensures QuotedList(entries) == [] <==> entries == []
    ensures QuotedList(entries + [e]) ==
      (if entries == [] then Quote(e) else QuotedList(entries) + ListSeparator + Quote(e))
  {
    assert Quoted(entries + [e]) == Quoted(entries) + [Quote(e)];
    if entries != [] {
      ImplodeSnoc(",", Quoted(entries), Quote(e));
      if |entries| > 1 {
        assert QuotedList(entries) == Quote(entries[0]) + ListSeparator + Implode(",", Quoted(entries)[1..]);
      }
      assert QuotedList(entries)[0] == '"';
    } else {
      assert Quoted([e]) == [Quote(e)];
    }
  }

  /** Exploding the list literal on ',' and trimming '"' recovers the entries,
      one per entry and in order, when no entry holds ',' or '"'. */
  lemma QuotedListRoundTrip(entries: seq<PhpString>)
    requires |entries| >= 1
    requires forall i :: 0 <= i < |entries| ==> ',' !in entries[i] && '"' !in entries[i]
    ensures var list := Explode(',', QuotedList(entries));
      && |list| == |entries|
      && forall i :: 0 <= i < |list| ==> list[i] == Quote(entries[i]) && Unquote(list[i]) == entries[i]
  {
    var q := Quoted(entries);
    forall i | 0 <= i < |q| ensures ',' !in q[i] {
      assert q[i] == QuoteMark + entries[i] + QuoteMark;
    }
    ExplodeImplode(',', q);
    forall i | 0 <= i < |entries| ensures Unquote(q[i]) == entries[i] {
      var e := entries[i];
      assert e == [] || (e[0] != '"' && e[|e| - 1] != '"');
      TrimCharsOfPadded(['"'], e, ['"'], {'"'});
      assert q[i] == ['"'] + e + ['"'];
    }
  }

  // ---------------------------------------------------------------------------
  // dcm_shortcode

  /** The src attribute split on ',' with each part trimmed of whitespace. */
  function TrimmedParts(src: PhpString): (parts: seq<PhpString>)
    ensures |parts| == |Explode(',', src)|
  {
    var raw := Explode(',', src);
    seq(|raw|, i requires 0 <= i < |raw| => Trim(raw[i]))
  }

  /** '"' . implode('","', $fileList) . '"'. */
  function NormaliseSrc(src: PhpString): PhpString
  {
    QuoteMark + Implode(QuotedSeparator, TrimmedParts(src)) + QuoteMark
  }

  /** Joining with '","' inside outer quotes is the quoted list of the parts. */
  lemma {:induction false} QuotedJoin(parts: seq<PhpString>)
    requires |parts| >= 1
    ensures QuoteMark + Implode(QuotedSeparator, parts) + QuoteMark == QuotedList(parts)
    decreases |parts|
  {
    if |parts| > 1 {
      QuotedJoin(parts[1..]);
      assert Quoted(parts)[1..] == Quoted(parts[1..]);
      assert Quoted(parts)[0] == Quote(parts[0]);
      calc {
        QuoteMark + Implode(QuotedSeparator, parts) + QuoteMark;
        QuoteMark + (parts[0] + QuotedSeparator + Implode(QuotedSeparator, parts[1..])) + QuoteMark;
        { assert QuotedSeparator == QuoteMark + ListSeparator + QuoteMark; }
        (QuoteMark + parts[0] + QuoteMark) + ListSeparator + (QuoteMark + Implode(QuotedSeparator, parts[1..]) + QuoteMark);
        Quote(parts[0]) + ListSeparator + QuotedList(parts[1..]);
        QuotedList(parts);
      }
    } else {
      assert Quoted(parts) == [Quote(parts[0])];
    }
  }

  /** For a src without '"', the list literal has one entry per comma-separated
      part, and exploding and unquoting it gives the trimmed parts in order. */
  lemma NormaliseSrcRoundTrip(src: PhpString)
    requires '"' !in src
    ensures NormaliseSrc(src) == QuotedList(TrimmedParts(src))
    ensures var list := Explode(',', NormaliseSrc(src));
      && |list| == |Explode(',', src)|
      && forall i :: 0 <= i < |list| ==> Unquote(list[i]) == Trim(Explode(',', src)[i])
  {
    var raw := Explode(',', src);
    var parts := TrimmedParts(src);
    QuotedJoin(parts);
    forall i | 0 <= i < |parts| ensures ',' !in parts[i] && '"' !in parts[i] {
      ExplodeKeepsAbsence(',', src, '"', i);
      TrimCharsKeepsAbsence(raw[i], TrimWhitespace, ',');
      TrimCharsKeepsAbsence(raw[i], TrimWhitespace, '"');
    }
    QuotedListRoundTrip(parts);
  }

  /** A width or height attribute, or 0 when it is missing or empty. */
  function ShortcodeDimension(atts: Attributes, key: PhpString): PhpValue
  {
    if Empty(Attr(atts, key)) then Int(0) else Attr(atts, key)
  }

  /** Without usable width and height attributes the viewer is unsized. */
  lemma ShortcodeDefaultsUnsized(atts: Attributes)
    requires Empty(Attr(atts, "width")) || Empty(Attr(atts, "height"))
    ensures LayerStyle(ShortcodeDimension(atts, "width"), ShortcodeDimension(atts, "height")) == []
  {
  }

  /** dcm_shortcode: nothing (and no script) without a usable src; otherwise the
      viewer over the normalised list with the attribute sizes. */
  method DcmShortcode(queue: ScriptQueue, atts: Attributes, id: PhpString, viewerPage: PhpString)
    returns (html: Option<PhpString>)
    modifies queue
    ensures Empty(Attr(atts, "src")) ==>
      html == None && queue.enqueued == old(queue.enqueued) && queue.inline == old(queue.inline)
    ensures !Empty(Attr(atts, "src")) ==>
      var urls := NormaliseSrc(atts["src"]);
      && html == Some(Render(Viewer(urls, ShortcodeDimension(atts, "width"), ShortcodeDimension(atts, "height"), id, viewerPage)))
      && queue.enqueued == old(queue.enqueued) + {SimpleViewerHandle, WpInitHandle}
      && queue.inline == old(queue.inline) + [InlineScript(WpInitHandle, LaunchScriptFor(id, urls))]
  {
    if Empty(Attr(atts, "src")) {
      return None;
    }
    var width: PhpValue := Int(0);
    if !Empty(Attr(atts, "width")) {
      width := Attr(atts, "width");
    }
    var height: PhpValue := Int(0);
    if !Empty(Attr(atts, "height")) {
      height := Attr(atts, "height");
    }
    var urls := NormaliseSrc(atts["src"]);
    var out := CreateDwvHtml(queue, urls, width, height, id, viewerPage);
    html := Some(out);
  }

  // ---------------------------------------------------------------------------
  // media_send_to_editor

  /** The fields of a WP_Post the plugin reads. */
  datatype Post = Post(guid: PhpString, postMimeType: PhpString)

  /** $post->post_mime_type == 'application/dicom'; a missing post (null) is not DICOM. */
  predicate IsDicomPost(post: Option<Post>)
  {
    post.Some? && post.value.postMimeType == DicomMimeType
  }

  function EmbedDirective(url: PhpString): PhpString
  {
    EmbedOpen + url + EmbedClose
  }

  /** media_send_to_editor: a DICOM attachment with a url is inserted as a 'dcm'
      shortcode; anything else keeps the host's html. */
  function MediaSendToEditor(html: PhpString, id: int, attachment: Attributes, getPost: int -> Option<Post>): (r: PhpString)
    ensures IsDicomPost(getPost(id)) && !Empty(Attr(attachment, "url")) ==> r == EmbedDirective(attachment["url"])
    ensures !IsDicomPost(getPost(id)) || Empty(Attr(attachment, "url")) ==> r == html
  {
    var post := getPost(id);
    if IsDicomPost(post) && !Empty(Attr(attachment, "url")) then EmbedDirective(attachment["url"]) else html
  }

  /** The inserted shortcode, read back with src set to the attachment url (one
      url: no ',', no '"', no surrounding whitespace), shows exactly that file,
      and its full-screen link carries the url itself. */
  lemma EmbedDirectiveShowsAttachment(url: PhpString, viewerPage: PhpString)
    requires ',' !in url && '"' !in url
    requires url == [] || (url[0] !in TrimWhitespace && url[|url| - 1] !in TrimWhitespace)
    ensures NormaliseSrc(url) == Quote(url)
    ensures FullScreenLinkOf(NormaliseSrc(url), viewerPage) == viewerPage + QueryMark + InputKey + UrlEncode(url)
  {
    NormaliseSingleUrl(url);
    QuoteHasNoComma(url);
    SingleEntryLink(Quote(url), viewerPage);
    UnquoteQuote(url);
  }

  /** A single url without surrounding whitespace is normalised to that url in quotes. */
  lemma NormaliseSingleUrl(url: PhpString)
    requires ',' !in url
    requires url == [] || (url[0] !in TrimWhitespace && url[|url| - 1] !in TrimWhitespace)
    ensures NormaliseSrc(url) == Quote(url)
  {
    ExplodeWithoutSeparator(',', url);
    TrimCharsUnchanged(url, TrimWhitespace);
    assert TrimmedParts(url) == [url];
    assert Implode(QuotedSeparator, [url]) == url;
  }

  lemma QuoteHasNoComma(url: PhpString)
    requires ',' !in url
    ensures ',' !in Quote(url)
  {
    assert forall k :: 0 <= k < |QuoteMark| ==> QuoteMark[k] == '"';
  }

  /** Unquote undoes Quote on text that holds no '"'. */
  lemma UnquoteQuote(url: PhpString)
    requires '"' !in url
    ensures Unquote(Quote(url)) == url
  {
    assert forall k :: 0 <= k < |QuoteMark| ==> QuoteMark[k] == '"';
    assert url == [] || (url[0] != '"' && url[|url| - 1] != '"');
    TrimCharsOfPadded(QuoteMark, url, QuoteMark, {'"'});
  }

  // ---------------------------------------------------------------------------
  // post_gallery

  /** The arguments of the get_posts call. */
  datatype PostQuery = PostQuery(includeIds: PhpString, postStatus: PhpString, postType: PhpString,
                                 postMimeType: PhpString, order: PhpString, orderby: PhpString)

  const GalleryDefaults: Attributes :=
    map["order" := "ASC", "orderby" := "menu_order ID", "include" := "", "size" := "full"]

  /** shortcode_atts($defaults, $atts): every default key, with the given value when present. */
  function ShortcodeAtts(defaults: Attributes, atts: Attributes): (r: Attributes)
    ensures r.Keys == defaults.Keys
    ensures forall k :: k in atts && k in defaults ==> r[k] == atts[k]
    ensures forall k :: k !in atts && k in defaults ==> r[k] == defaults[k]
  {
    map k | k in defaults :: if k in atts then atts[k] else defaults[k]
  }

  /** The pixel square of a gallery size keyword; (0, 0), unsized, for anything else. */
  function GallerySize(size: PhpString): (int, int)
  {
    if size == "thumbnail" then (100, 100)
    else if size == "medium" then (250, 250)
    else if size == "large" then (500, 500)
    else (0, 0)
  }

  function GalleryQuery(atts: Attributes): PostQuery
    requires GalleryDefaults.Keys <= atts.Keys
  {
    PostQuery(atts["include"], "inherit", "attachment", DicomMimeType, atts["order"], atts["orderby"])
  }

  function Guids(posts: seq<Post>): (guids: seq<PhpString>)
    ensures |guids| == |posts|
  {
    seq(|posts|, i requires 0 <= i < |posts| => posts[i].guid)
  }

  /** The gallery's container style for each size keyword. */
  lemma GalleryStyles(size: PhpString)
    ensures var (w, h) := GallerySize(size);
      && (size == "thumbnail" ==> LayerStyle(Int(w), Int(h)) == PixelStyle("100", "100"))
      && (size == "medium" ==> LayerStyle(Int(w), Int(h)) == PixelStyle("250", "250"))
      && (size == "large" ==> LayerStyle(Int(w), Int(h)) == PixelStyle("500", "500"))
      && (size != "thumbnail" && size != "medium" && size != "large" ==> LayerStyle(Int(w), Int(h)) == [])
  {
    if size == "thumbnail" {
      SquareStyle(100, 1, 0, 0);
    } else if size == "medium" {
      SquareStyle(250, 2, 5, 0);
    } else if size == "large" {
      SquareStyle(500, 5, 0, 0);
    } else {
      LayerStyleOfIntegers(0, 0);
    }
  }

  /** A square of a three-digit size is styled with those three digits. */
  lemma SquareStyle(n: nat, a: nat, b: nat, c: nat)
    requires 1 <= a < 10 && b < 10 && c < 10 && n == 10 * (10 * a + b) + c
    ensures var digits := [DigitChar(a), DigitChar(b), DigitChar(c)];
      LayerStyle(Int(n), Int(n)) == PixelStyle(digits, digits)
  {
    LayerStyleOfIntegers(n, n);
    ThreeDigitDecimal(n, a, b, c);
  }

  lemma ThreeDigitDecimal(n: nat, a: nat, b: nat, c: nat)
    requires 1 <= a < 10 && b < 10 && c < 10 && n == 10 * (10 * a + b) + c
    ensures NatToDecimal(n) == [DigitChar(a), DigitChar(b), DigitChar(c)]
  {
    var ab := 10 * a + b;
    AppendDigit(a, b);
    AppendDigit(ab, c);
    assert NatToDecimal(a) == [DigitChar(a)];
  }

  /** Appending a digit to a positive number appends it to the number's text. */
  lemma AppendDigit(q: nat, r: nat)
    requires q >= 1 && r < 10
    ensures NatToDecimal(10 * q + r) == NatToDecimal(q) + [DigitChar(r)]
  {
    LastDigit(q, r);
  }

  lemma LastDigit(q: nat, r: nat)
    requires r < 10
    ensures (10 * q + r) / 10 == q && (10 * q + r) % 10 == r
  {
    var x := 10 * q + r;
    var d, m := x / 10, x % 10;
    assert x == 10 * d + m && 0 <= m < 10;
    assert 10 * (d - q) == r - m;
  }

  /** One turn of the gallery's foreach: ',' when the list is not empty, then
      the next guid in quotes. */
  lemma GuidListStep(posts: seq<Post>, i: nat)
    requires i < |posts|
    ensures var urls := QuotedList(Guids(posts[..i]));
      (if urls != [] then urls + ListSeparator else urls) + QuoteMark + posts[i].guid + QuoteMark
      == QuotedList(Guids(posts[..i + 1]))
  {
    var before := Guids(posts[..i]);
    QuotedListSnoc(before, posts[i].guid);
    assert Guids(posts[..i + 1]) == before + [posts[i].guid];
  }

  /** After the foreach the list covers every post, and is empty only for no posts. */
  lemma GuidListComplete(posts: seq<Post>, i: nat)
    requires i == |posts|
    ensures posts[..i] == posts
    ensures QuotedList(Guids(posts)) == [] <==> posts == []
  {
    assert posts[..i] == posts;
    QuotedListSnoc(Guids(posts), []);
  }

  /** post_gallery: query the DICOM attachments; none gives '' (the host then
      renders its own gallery) and queues nothing; otherwise the viewer over
      their guids, quoted and comma-joined in query order. */
  method PostGallery(queue: ScriptQueue, output: PhpString, atts: Attributes, getPosts: PostQuery -> seq<Post>,
                     id: PhpString, viewerPage: PhpString)
    returns (html: PhpString)
    modifies queue
    ensures var a := ShortcodeAtts(GalleryDefaults, atts);
      var posts := getPosts(GalleryQuery(a));
      var (w, h) := GallerySize(a["size"]);
      && (posts == [] ==> html == [] && queue.enqueued == old(queue.enqueued) && queue.inline == old(queue.inline))
      && (posts != [] ==>
           && html == Render(Viewer(QuotedList(Guids(posts)), Int(w), Int(h), id, viewerPage))
           && queue.enqueued == old(queue.enqueued) + {SimpleViewerHandle, WpInitHandle}
           && queue.inline == old(queue.inline) + [InlineScript(WpInitHandle, LaunchScriptFor(id, QuotedList(Guids(posts))))])
  {
    var a := ShortcodeAtts(GalleryDefaults, atts);
    var width := 0;
    var height := 0;
    if a["size"] == "thumbnail" {
      width, height := 100, 100;
    } else if a["size"] == "medium" {
      width, height := 250, 250;
    } else if a["size"] == "large" {
      width, height := 500, 500;
    }
    assert (width, height) == GallerySize(a["size"]);
    var posts := getPosts(GalleryQuery(a));
    var urls: PhpString := [];
    var i := 0;
    while i < |posts|
      invariant 0 <= i <= |posts|
      invariant urls == QuotedList(Guids(posts[..i]))
      invariant queue.enqueued == old(queue.enqueued) && queue.inline == old(queue.inline)
    {
      GuidListStep(posts, i);
      if urls != [] {
        urls := urls + ListSeparator;
      }
      urls := urls + QuoteMark + posts[i].guid + QuoteMark;
      i := i + 1;
    }
    GuidListComplete(posts, i);
    html := [];
    if urls != [] {
      html := CreateDwvHtml(queue, urls, Int(width), Int(height), id, viewerPage);
    }
  }
}
