/** The player helpers (player-advanced.js): stream-type detection from a
    URL, the logo lookup for a channel title, and the lazily loaded overlay
    iframe. */
module Player {
  import opened Text
  import opened Js

  const Hls := "application/x-mpegURL"
  const Dash := "application/dash+xml"
  const YouTube := "video/youtube"
  const Mp3 := "audio/mpeg"
  const Mp4 := "video/mp4"

  datatype SourceConfig = SourceConfig(src: string, kind: string)

  /** `url.trim().toLowerCase()`: the string the rules look at. */
  function Normal(s: string): string {
    Lower(Trim(s))
  }

  predicate IsYouTube(lower: string) {
    Includes(lower, "youtube.com/watch") || Includes(lower, "youtu.be/")
  }

  /** The type given by the first rule that matches the normal form. */
  function KindOf(lower: string): (k: string)
    ensures k in [Hls, Dash, YouTube, Mp3, Mp4]
  {
    if EndsWith(lower, ".m3u8") then Hls
    else if EndsWith(lower, ".mpd") then Dash
    else if IsYouTube(lower) then YouTube
    else if EndsWith(lower, ".mp3") then Mp3
    else Mp4
  }

  /** `spxDetectSourceConfig(url)`: the URL itself, untrimmed, with the type
      its normal form is given. */
  function DetectSource(url: string): (c: SourceConfig)
    ensures c.src == url
  {
    SourceConfig(url, KindOf(Normal(url)))
  }

  /** Each type is chosen exactly when its rule is the first to match: a
      playlist suffix wins over a YouTube address, and a YouTube address
      over an .mp3 suffix. */
  lemma DetectRules(url: string)
    ensures var lower := Normal(url);
            var k := DetectSource(url).kind;
            && (k == Hls <==> EndsWith(lower, ".m3u8"))
            && (k == Dash <==> !EndsWith(lower, ".m3u8") && EndsWith(lower, ".mpd"))
            && (k == YouTube <==> !EndsWith(lower, ".m3u8") && !EndsWith(lower, ".mpd") && IsYouTube(lower))
            && (k == Mp3 <==> !EndsWith(lower, ".m3u8") && !EndsWith(lower, ".mpd") && !IsYouTube(lower)
                               && EndsWith(lower, ".mp3"))
            && (k == Mp4 <==> !EndsWith(lower, ".m3u8") && !EndsWith(lower, ".mpd") && !IsYouTube(lower)
                               && !EndsWith(lower, ".mp3"))
  {
  }

  /** The normal form ignores surrounding white space and ASCII case. */
  lemma NormalIgnoresPaddingAndCase(p: string, u: string, q: string)
    requires AllSpace(p) && AllSpace(q)
    ensures Normal(p + u + q) == Normal(u)
    ensures Normal(Lower(u)) == Normal(u)
  {
    TrimIgnoresPadding(p, u, q);
    LowerTrimCommute(u);
    LowerTrimCommute(Lower(u));
    LowerIsLowerCase(u);
  }

  /** Surrounding white space and ASCII letter case do not change the type. */
  lemma DetectIgnoresPaddingAndCase(p: string, u: string, q: string)
    requires AllSpace(p) && AllSpace(q)
    ensures DetectSource(p + u + q).kind == DetectSource(u).kind
    ensures DetectSource(Lower(u)).kind == DetectSource(u).kind
  {
    NormalIgnoresPaddingAndCase(p, u, q);
  }

  /** "A.M3U8" names an HLS playlist. */
  lemma UpperPlaylist(u: string)
    requires u == "A.M3U8"
    ensures DetectSource(u).kind == Hls
  {
    assert Trim(u) == u by {
      assert TrimStart(u) == u;
      assert TrimEnd(u) == u;
    }
    LowerAt(u);
    assert Lower(u) == "a.m3u8";
  }

  /** `" A.M3U8 "` is HLS, its `src` kept with the spaces. */
  lemma PaddedUpperPlaylist(url: string)
    requires url == " A.M3U8 "
    ensures DetectSource(url) == SourceConfig(url, Hls)
  {
    var u := "A.M3U8";
    assert url == " " + u + " ";
    DetectIgnoresPaddingAndCase(" ", u, " ");
    UpperPlaylist(u);
  }

  // ---------------------------------------------------------------------
  // spxFindLogoForTitle
  // ---------------------------------------------------------------------

  /** An entry of CUSTOM_LIST: Missing is a falsy entry or one without a
      title; an empty logo is a falsy one. */
  datatype Item = Missing | Item(title: string, logo: string)

  /** The `find` callback: the entry has a title and it normalises to `clean`. */
  predicate Matches(item: Item, clean: string) {
    item.Item? && item.title != "" && Normal(item.title) == clean
  }

  /** The index `find` stops at, or the length when nothing matches. */
  function FirstMatch(items: seq<Item>, clean: string): (i: nat)
    ensures i <= |items|
    ensures i < |items| ==> Matches(items[i], clean)
    ensures forall j :: 0 <= j < i ==> !Matches(items[j], clean)
  {
    if items == [] then 0
    else if Matches(items[0], clean) then 0
    else
      var i := FirstMatch(items[1..], clean);
      assert forall j :: 1 <= j < i + 1 ==> items[j] == items[1..][j - 1];
      1 + i
  }

  /** `spxFindLogoForTitle(title)`; `list` is None when CUSTOM_LIST is not an
      array, and an empty title is a falsy one. None is `null`. */
  function FindLogo(title: string, list: Option<seq<Item>>): Option<string> {
    if title == "" || list.None? then None
    else
      var items := list.value;
      var i := FirstMatch(items, Normal(title));
      if i < |items| && items[i].logo != "" then Some(items[i].logo) else None
  }

  /** A logo is found exactly when the title is non-empty, the list is an
      array, and the first entry whose title matches has a logo; that logo
      is the result. A later matching entry is never consulted. */
  lemma FindLogoMeaning(title: string, list: Option<seq<Item>>)
    ensures title == "" || list.None? ==> FindLogo(title, list) == None
    ensures title != "" && list.Some? ==>
              var items := list.value;
              var clean := Normal(title);
              forall i :: 0 <= i < |items| && Matches(items[i], clean)
                          && (forall j :: 0 <= j < i ==> !Matches(items[j], clean)) ==>
                FindLogo(title, list) == (if items[i].logo != "" then Some(items[i].logo) else None)
    ensures title != "" && list.Some? && (forall i :: 0 <= i < |list.value| ==> !Matches(list.value[i], Normal(title))) ==>
              FindLogo(title, list) == None
  {
    if title != "" && list.Some? {
      var items := list.value;
      var clean := Normal(title);
      var k := FirstMatch(items, clean);
      forall i | 0 <= i < |items| && Matches(items[i], clean) && (forall j :: 0 <= j < i ==> !Matches(items[j], clean))
        ensures k == i
      {
        assert k <= i;
      }
    }
  }

  /** Titles that differ only in padding or ASCII case find the same logo. */
  lemma FindLogoIgnoresPaddingAndCase(p: string, title: string, q: string, list: Option<seq<Item>>)
    requires AllSpace(p) && AllSpace(q) && title != ""
    ensures FindLogo(p + title + q, list) == FindLogo(title, list)
    ensures FindLogo(Lower(title), list) == FindLogo(title, list)
  {
    NormalIgnoresPaddingAndCase(p, title, q);
    assert |p + title + q| > 0 && |Lower(title)| > 0;
  }

  /** A title made only of white space is still truthy and matches an entry
      whose title is white space too. */
  lemma BlankTitleMatches(title: string, logo: string, list: Option<seq<Item>>)
    requires title == "  " && logo != ""
    requires list == Some([Item(" ", logo)])
    ensures FindLogo(title, list) == Some(logo)
  {
    assert Normal(title) == "" by {
      assert AllSpace(title);
      TrimIgnoresPadding(title, "", "");
      assert title + "" + "" == title;
    }
    assert Normal(" ") == "" by {
      TrimIgnoresPadding(" ", "", "");
      assert " " + "" + "" == " ";
    }
    assert Matches(list.value[0], Normal(title));
  }

  // ---------------------------------------------------------------------
  // openOverlay / closeOverlay
  // ---------------------------------------------------------------------

  /** The overlay layer and its lazily loaded iframe. */
  class Overlay {
    /** `overlay.hidden` (and `style.display`, which always agrees). */
    var hidden: bool
    /** The closure variable `iframeLoaded`. */
    var iframeLoaded: bool
    /** `iframe.dataset.src`; empty when unset. */
    var dataSrc: string
    /** `iframe.src` */
    var src: string
    /** How many times `iframe.src` was assigned. */
    ghost var srcWrites: nat

    /** The iframe is loaded exactly when `src` was assigned, which happened
        at most once and with the stored URL. */
    ghost predicate Valid()
      reads this
    {
      && srcWrites <= 1
      && (iframeLoaded <==> srcWrites == 1)
      && (iframeLoaded ==> dataSrc != "" && src == dataSrc)
    }

    /** `spxInitOverlayIframe`: the overlay starts hidden and not loaded; an
        iframe already in the page may carry a `data-src` and a `src`. */
    constructor(dataSrc: string, src: string)
      ensures Valid()
      ensures hidden && !iframeLoaded && this.dataSrc == dataSrc && this.src == src
    {
      hidden := true;
      iframeLoaded := false;
      this.dataSrc := dataSrc;
      this.src := src;
      srcWrites := 0;
    }

    /** `openOverlay(url)`: the URL is stored only if none was; the first
        open that finds a stored URL loads it; the overlay is shown. */
    method Open(url: string)
      requires Valid()
      modifies this
      ensures Valid()
      ensures !hidden
      ensures dataSrc == if old(dataSrc) != "" then old(dataSrc) else url
      ensures old(iframeLoaded) ==> iframeLoaded && src == old(src) && srcWrites == old(srcWrites)
      ensures !old(iframeLoaded) ==>
                if dataSrc != "" then iframeLoaded && src == dataSrc && srcWrites == 1
                else !iframeLoaded && src == old(src) && srcWrites == 0
    {
      if url != "" && dataSrc == "" {
        dataSrc := url;
      }
      if !iframeLoaded && dataSrc != "" {
        src := dataSrc;
        srcWrites := srcWrites + 1;
        iframeLoaded := true;
      }
      hidden := false;
    }

    /** `closeOverlay()`: hides the overlay and nothing else. */
    method Close()
      requires Valid()
      modifies this
      ensures Valid()
      ensures hidden
      ensures iframeLoaded == old(iframeLoaded) && dataSrc == old(dataSrc) && src == old(src)
      ensures srcWrites == old(srcWrites)
    {
      hidden := true;
    }
  }

  /** Opening with two URLs in turn loads the first one and keeps it: the
      second neither replaces the stored URL nor reloads the iframe, and
      closing in between changes nothing of that. */
  method OpenTwice(first: string, second: string) returns (o: Overlay)
    requires first != ""
    ensures fresh(o) && o.Valid()
    ensures !o.hidden && o.iframeLoaded && o.dataSrc == first && o.src == first && o.srcWrites == 1
  {
    o := new Overlay("", "");
    o.Open(first);
    o.Close();
    o.Open(second);
  }
}
