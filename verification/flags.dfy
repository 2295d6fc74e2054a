/**
 * `extract_flag_url`: the flag image of a founding event, found with
 * `re.search(r'<img src="(/images/flags/[^\"]+)"', html)`, rewritten from
 * SVG to PNG and made absolute; a fixed default flag otherwise.
 */
module Flags {
  import opened Wrappers
  import opened Text

  const Origin := "https://www.nationstates.net"
  const ImgOpen := "<img src=\""
  const FlagDir := "/images/flags/"
  const DefaultFlagUrl := Origin + FlagDir + "Default.png"

  /**
   * The regex matches with `<img src="/images/flags/` at `i` and its closing
   * quote at `q`: at least one character lies in between and none of them
   * is a quote (`[^"]+` is greedy, so `q` is the first quote after the path
   * starts). Group 1 is `html[i + |ImgOpen|..q]`.
   */
  ghost predicate IsFlagMatch(html: string, i: int, q: int)
  {
    && OccursAt(html, ImgOpen + FlagDir, i)
    && i + |ImgOpen + FlagDir| < q < |html|
    && html[q] == '\"'
    && forall k :: i + |ImgOpen + FlagDir| <= k < q ==> html[k] != '\"'
  }

  /** The closing quote the regex pairs with a tag starting at `i`, if any. */
  function FlagMatchAt(html: string, i: nat): (r: Option<nat>)
    ensures r.Some? ==> IsFlagMatch(html, i, r.value)
    ensures r.None? ==> forall q :: !IsFlagMatch(html, i, q)
  {
    var start := i + |ImgOpen + FlagDir|;
    if !OccursAt(html, ImgOpen + FlagDir, i) then None
    else match NextOccurrence(html, "\"", start)
      case None =>
        assert forall q :: start <= q < |html| ==> html[q] != '\"' by {
          forall q | start <= q < |html| ensures html[q] != '\"' {
            assert !OccursAt(html, "\"", q);
            assert html[q..q + 1][0] == html[q];
          }
        }
        None
      case Some(q) =>
        assert forall k :: start <= k < q ==> html[k] != '\"' by {
          forall k | start <= k < q ensures html[k] != '\"' {
            assert !OccursAt(html, "\"", k);
            assert html[k..k + 1][0] == html[k];
          }
        }
        assert html[q..q + 1][0] == html[q] == '\"';
        if q == start then None else Some(q)
  }

  /** The leftmost match at or after `i`, as tag position and quote position. */
  function FirstFlagMatchFrom(html: string, i: nat): (r: Option<(nat, nat)>)
    ensures r.Some? ==> i <= r.value.0 && IsFlagMatch(html, r.value.0, r.value.1)
    ensures r.Some? ==> forall i', q :: i <= i' < r.value.0 ==> !IsFlagMatch(html, i', q)
    ensures r.None? ==> forall i', q :: i <= i' ==> !IsFlagMatch(html, i', q)
    decreases |html| + 1 - i
  {
    if i > |html| then None
    else match FlagMatchAt(html, i)
      case Some(q) => Some((i, q))
      case None => FirstFlagMatchFrom(html, i + 1)
  }

  /** `event.get("htmlStr", "")`. */
  function HtmlOf(event: map<string, string>): string
  {
    if "htmlStr" in event then event["htmlStr"] else ""
  }

  /**
   * Group 1 of the leftmost match: the flag path, which always starts with
   * `/images/flags/` and has at least one more character.
   */
  function FlagPath(html: string): (r: Option<string>)
    ensures r.None? <==> forall i, q :: !IsFlagMatch(html, i, q)
    ensures r.Some? ==> exists i, q :: (IsFlagMatch(html, i, q)
      && (forall i', q' :: IsFlagMatch(html, i', q') ==> i <= i')
      && r.value == html[i + |ImgOpen|..q])
    ensures r.Some? ==> exists file :: r.value == FlagDir + file && file != "" && '\"' !in file
  {
    match FirstFlagMatchFrom(html, 0)
    case None => None
    case Some((i, q)) =>
      var tagEnd := i + |ImgOpen + FlagDir|;
      var file := html[tagEnd..q];
      assert html[i..tagEnd][|ImgOpen|..] == html[i + |ImgOpen|..tagEnd];
      assert html[i + |ImgOpen|..q] == html[i + |ImgOpen|..tagEnd] + file;
      assert forall k :: 0 <= k < |file| ==> file[k] == html[tagEnd + k];
      Some(html[i + |ImgOpen|..q])
  }

  /** `extract_flag_url(event)`: the absolute PNG flag, or the default flag. */
  function ExtractFlagUrl(event: map<string, string>): (r: string)
    ensures StartsWith(r, Origin + FlagDir)
    ensures FlagPath(HtmlOf(event)).None? ==> r == DefaultFlagUrl
    ensures FlagPath(HtmlOf(event)).Some? ==> r == Origin + ReplaceAll(FlagPath(HtmlOf(event)).value, ".svg", ".png")
  {
    match FlagPath(HtmlOf(event))
    case None => DefaultFlagUrl
    case Some(path) =>
      var file :| path == FlagDir + file && file != "" && '\"' !in file;
      ReplaceAfterPrefix(FlagDir, file, ".svg", ".png");
      Origin + ReplaceAll(path, ".svg", ".png")
  }

  /** A flag found in the markup is always served as raster: no ".svg" is left in what follows the origin. */
  lemma FlagUrlIsRaster(event: map<string, string>)
    ensures ExtractFlagUrl(event) == DefaultFlagUrl ||
      exists p :: ExtractFlagUrl(event) == Origin + p && !Contains(p, ".svg")
  {
    match FlagPath(HtmlOf(event))
    case None =>
    case Some(path) =>
      ReplaceSvgRemoves(path);
  }

  /** An event without markup shows the default flag. */
  lemma NoMarkupDefaultFlag(event: map<string, string>)
    requires "htmlStr" !in event
    ensures ExtractFlagUrl(event) == DefaultFlagUrl
  {
  }
}
