/**
 * The strings of a notification: `build_title_and_url`, `build_link`, the
 * description and ping content assembled in `send_to_discord`, and the
 * template list of `send_info_embed`. The webhook POST, the embed colour and
 * the clock-dependent footers are not modelled.
 */
module Formatter {
  import opened Wrappers
  import opened Text
  import opened Markers
  import opened Settings
  import opened Validator
  import opened Flags

  const ScriptName := "The_Vigil_of_Origins"
  const ProfileBase := Origin + "/nation="
  const ComposePage := Origin + "/page=compose_telegram?"
  const UnknownRegion := "an unknown region"

  // Fixed texts of the embeds.
  const BannerPrefix := "📜 A Banner Unfurled — "
  const NationsLead := "🧭 **Nations Welcomed by the Realms**: "
  const PathsHeader := "📨 **Ritual Telegram Paths:**"
  const CommuneLead := "🖋️ [Commune with the Newborn Realms]("
  const NoTemplates := "• _No templates provided_"
  const NoBlacklist := "_None_"

  // ---------------------------------------------------------------------
  // Title and profile URL

  datatype Heading = Heading(title: string, url: string)

  /** How an f-string renders the extracted nation: `None` prints as "None". */
  function NationText(nation: Option<string>): string
  {
    match nation
    case None => "None"
    case Some(n) => n
  }

  /** "refounded" when the text says so, "founded" otherwise. */
  function Verb(s: string): (v: string)
    ensures v == "refounded" <==> Contains(s, "refounded")
    ensures v == "founded" || v == "refounded"
  {
    if Contains(s, "refounded") then "refounded" else "founded"
  }

  /**
   * The region as displayed: the first `%%...%%` text with underscores as
   * spaces, title-cased; "an unknown region" when there is none.
   */
  function RegionDisplay(s: string): (r: string)
    ensures ExtractRegion(s).None? ==> r == UnknownRegion
    ensures ExtractRegion(s).Some? ==> |r| == |ExtractRegion(s).value|
    ensures ExtractRegion(s).Some? ==> '_' !in r && Title(r) == r
  {
    match ExtractRegion(s)
    case None => UnknownRegion
    case Some(region) =>
      var spaced := ReplaceAll(region, "_", " ");
      var r := Title(spaced);
      ReplaceCharRemoves(region, '_', ' ');
      TitleKeepsKinds(spaced);
      assert forall k :: 0 <= k < |r| ==> r[k] != '_' by {
        forall k | 0 <= k < |r| ensures r[k] != '_' {
          if !IsLetter(spaced[k]) {
            assert r[k] == spaced[k];
          }
        }
      }
      TitleIdempotent(spaced);
      r
  }

  /** `build_title_and_url(event_str)`. */
  function TitleAndUrl(s: string): Heading
  {
    var nation := NationText(ExtractTargetName(s));
    Heading(nation + " was " + Verb(s) + " in " + RegionDisplay(s), ProfileBase + nation)
  }

  /**
   * For a forwarded event the heading names the same nation the validator
   * accepted: the title starts with it and the URL is its profile page.
   */
  lemma HeadingOfValidEvent(event: Event, blacklist: seq<string>)
    requires IsValidEvent(event, blacklist)
    ensures var n := ExtractTargetName(event["str"]).value;
      var h := TitleAndUrl(event["str"]);
      && n != "" && !IsDigit(n[|n| - 1])
      && StartsWith(h.title, n)
      && h.url == ProfileBase + n
      && h.title[|n|..] == " was " + Verb(event["str"]) + " in " + RegionDisplay(event["str"])
  {
    var s := event["str"];
    var n := ExtractTargetName(s).value;
    var tail := " was " + Verb(s) + " in " + RegionDisplay(s);
    assert NationText(ExtractTargetName(s)) == n;
    assert TitleAndUrl(s).title == n + tail;
    PrefixThenTail(n, tail);
  }

  /** A string built as `n + tail` starts with `n` and continues with `tail`. */
  lemma PrefixThenTail(n: string, tail: string)
    ensures StartsWith(n + tail, n) && (n + tail)[|n|..] == tail
  {
    assert (n + tail)[..|n|] == n;
  }

  // ---------------------------------------------------------------------
  // Telegram links

  /** `build_link(nations, ua, template_id)`. */
  function BuildLink(nations: seq<string>, ua: string, templateId: string): string
  {
    ComposePage + "tgto=" + Join(nations, ",") + "&message=" + templateId
      + "&generated_by=" + ScriptName + ",used_by=" + ua
  }

  /** The generic link of `send_to_discord`: the same, without a template. */
  function GenericLink(nations: seq<string>, ua: string): string
  {
    ComposePage + "tgto=" + Join(nations, ",") + "&generated_by=" + ScriptName + ",used_by=" + ua
  }

  /** Neither fixed part of a link holds an '&'. */
  lemma FixedPartsAvoidAmpersand()
    ensures '&' !in ComposePage + "tgto="
    ensures '&' !in "generated_by=" + ScriptName + ",used_by="
  {
    assert '&' !in Origin && '&' !in "/page=compose_telegram?";
  }

  /** The recipients part starts with 'h' and the provenance part with 'g'. */
  lemma FixedPartsLead(targets: string, ua: string)
    ensures (ComposePage + "tgto=" + targets)[0] == 'h'
    ensures ("generated_by=" + ScriptName + ",used_by=" + ua)[0] == 'g'
  {
    assert Origin[0] == 'h';
  }

  /** A parameter whose first character is not 'm' is not a `message=` parameter. */
  lemma NotMessageParameter(p: string)
    requires |p| > 0 && p[0] != 'm'
    ensures !StartsWith(p, "message=")
  {
    assert "message="[0] == 'm';
  }

  /** Regrouping a template link around its two '&' separators. */
  lemma RegroupLink(a: string, templateId: string, ua: string)
    ensures a + "&message=" + templateId + "&generated_by=" + ScriptName + ",used_by=" + ua
      == a + "&" + (("message=" + templateId) + "&" + ("generated_by=" + ScriptName + ",used_by=" + ua))
  {
    assert "&message=" == "&" + "message=";
    assert "&generated_by=" == "&" + "generated_by=";
    RegroupPieces(a, "message=", templateId, "generated_by=", ScriptName, ",used_by=", ua);
  }

  /** Concatenation regrouped around two '&' separators, over arbitrary pieces. */
  lemma RegroupPieces(a: string, k1: string, v1: string, k2: string, v2: string, k3: string, v3: string)
    ensures a + ("&" + k1) + v1 + ("&" + k2) + v2 + k3 + v3 == a + "&" + ((k1 + v1) + "&" + (k2 + v2 + k3 + v3))
  {
  }

  /** Regrouping a generic link around its '&' separator. */
  lemma RegroupGenericLink(a: string, ua: string)
    ensures a + "&generated_by=" + ScriptName + ",used_by=" + ua
      == a + "&" + ("generated_by=" + ScriptName + ",used_by=" + ua)
  {
    assert "&generated_by=" == "&" + "generated_by=";
  }

  /** Three '&'-free parts joined by '&' split back into those parts. */
  lemma SplitThreeParts(a: string, b: string, c: string)
    requires '&' !in a && '&' !in b && '&' !in c
    ensures Split(a + "&" + (b + "&" + c), '&') == [a, b, c]
  {
    SplitAfter(a, b + "&" + c, '&');
    SplitAfter(b, c, '&');
    SplitWithout(c, '&');
  }

  /** Two '&'-free parts joined by '&' split back into those parts. */
  lemma SplitTwoParts(a: string, c: string)
    requires '&' !in a && '&' !in c
    ensures Split(a + "&" + c, '&') == [a, c]
  {
    SplitAfter(a, c, '&');
    SplitWithout(c, '&');
  }

  /**
   * Read as '&'-separated parameters, a template link carries the
   * recipients, then `message=<template id>`, then the provenance pair, as
   * long as no input holds an '&'.
   */
  lemma LinkParameters(nations: seq<string>, ua: string, templateId: string)
    requires forall k :: 0 <= k < |nations| ==> '&' !in nations[k]
    requires '&' !in ua && '&' !in templateId
    ensures Split(BuildLink(nations, ua, templateId), '&') ==
      [ComposePage + "tgto=" + Join(nations, ","), "message=" + templateId,
       "generated_by=" + ScriptName + ",used_by=" + ua]
  {
    FixedPartsAvoidAmpersand();
    JoinAvoids(nations, ",", '&');
    var a := ComposePage + "tgto=" + Join(nations, ",");
    var b := "message=" + templateId;
    var c := "generated_by=" + ScriptName + ",used_by=" + ua;
    RegroupLink(a, templateId, ua);
    SplitThreeParts(a, b, c);
  }

  /** The generic link has the same recipients and provenance, and no `message=` parameter. */
  lemma GenericLinkParameters(nations: seq<string>, ua: string)
    requires forall k :: 0 <= k < |nations| ==> '&' !in nations[k]
    requires '&' !in ua
    ensures Split(GenericLink(nations, ua), '&') ==
      [ComposePage + "tgto=" + Join(nations, ","), "generated_by=" + ScriptName + ",used_by=" + ua]
    ensures forall p :: p in Split(GenericLink(nations, ua), '&') ==> !StartsWith(p, "message=")
  {
    FixedPartsAvoidAmpersand();
    JoinAvoids(nations, ",", '&');
    var a := ComposePage + "tgto=" + Join(nations, ",");
    var c := "generated_by=" + ScriptName + ",used_by=" + ua;
    RegroupGenericLink(a, ua);
    SplitTwoParts(a, c);
    FixedPartsLead(Join(nations, ","), ua);
    NotMessageParameter(a);
    NotMessageParameter(c);
  }

  /**
   * Nothing in a link is URL-encoded, so an '&' in the user agent splits it
   * into two parameters; a user agent such as "x&message=5" gives the
   * generic link a `message=` parameter.
   */
  lemma AmpersandSplitsUserAgent(nations: seq<string>, u1: string, u2: string)
    requires forall k :: 0 <= k < |nations| ==> '&' !in nations[k]
    requires '&' !in u1 && '&' !in u2
    ensures Split(GenericLink(nations, u1 + "&" + u2), '&') ==
      [ComposePage + "tgto=" + Join(nations, ","), "generated_by=" + ScriptName + ",used_by=" + u1, u2]
  {
    FixedPartsAvoidAmpersand();
    JoinAvoids(nations, ",", '&');
    var a := ComposePage + "tgto=" + Join(nations, ",");
    var c := "generated_by=" + ScriptName + ",used_by=";
    RegroupGenericLink(a, u1 + "&" + u2);
    RegroupTail(a, c, u1, u2);
    SplitThreeParts(a, c + u1, u2);
  }

  /** Moving the parentheses of a user agent that holds an '&'. */
  lemma RegroupTail(a: string, c: string, u1: string, u2: string)
    ensures a + "&" + (c + (u1 + "&" + u2)) == a + "&" + ((c + u1) + "&" + u2)
  {
  }

  /** Such a user agent smuggles a `message=` parameter into the generic link. */
  lemma UserAgentCarriesMessage(nations: seq<string>, u1: string, u2: string)
    requires forall k :: 0 <= k < |nations| ==> '&' !in nations[k]
    requires '&' !in u1 && '&' !in u2 && StartsWith(u2, "message=")
    ensures exists p :: p in Split(GenericLink(nations, u1 + "&" + u2), '&') && StartsWith(p, "message=")
  {
    AmpersandSplitsUserAgent(nations, u1, u2);
    assert Split(GenericLink(nations, u1 + "&" + u2), '&')[2] == u2;
  }

  /** For "alice" and "bob" and template 111 the link addresses both, in order, with that template. */
  lemma LinkScenario(ua: string)
    ensures Contains(BuildLink(["alice", "bob"], ua, "111"), "tgto=alice,bob&message=111")
  {
    var link := BuildLink(["alice", "bob"], ua, "111");
    assert Join(["alice", "bob"], ",") == "alice,bob";
    var i := |ComposePage|;
    assert link[i..i + |"tgto=alice,bob&message=111"|] == "tgto=alice,bob&message=111";
    assert OccursAt(link, "tgto=alice,bob&message=111", i);
  }

  // ---------------------------------------------------------------------
  // Description and ping

  /** The opening line: the nations joined with ", ". */
  function NationsLine(nations: seq<string>): string
  {
    NationsLead + Join(nations, ", ")
  }

  /** `f"• [{name} Invocation]({link})"`. */
  function TemplateLine(name: string, link: string): string
  {
    "• [" + name + " Invocation](" + link + ")"
  }

  /** The closing line, linking the generic compose page. */
  function CommuneLine(nations: seq<string>, ua: string): string
  {
    CommuneLead + GenericLink(nations, ua) + ")"
  }

  /** One line per template, in the dictionary's insertion order. */
  function TemplateLines(nations: seq<string>, ua: string, templates: TemplateMap): (r: seq<string>)
    ensures |r| == |templates|
    ensures forall k :: 0 <= k < |templates| ==>
      r[k] == TemplateLine(templates[k].name, BuildLink(nations, ua, templates[k].id))
  {
    seq(|templates|, k requires 0 <= k < |templates| =>
      TemplateLine(templates[k].name, BuildLink(nations, ua, templates[k].id)))
  }

  /** The lines of the founding embed's description, as `send_to_discord` appends them. */
  function DescriptionLines(nations: seq<string>, config: Config): seq<string>
  {
    [NationsLine(nations), ""]
      + (if |config.templates| > 0
         then [PathsHeader] + TemplateLines(nations, config.userAgent, config.templates)
         else [])
      + ["", CommuneLine(nations, config.userAgent)]
  }

  /** `description_lines` built by successive appends. */
  method AssembleDescription(nations: seq<string>, config: Config) returns (lines: seq<string>)
    ensures lines == DescriptionLines(nations, config)
  {
    lines := [NationsLine(nations), ""];
    var templates := config.templates;
    if |templates| > 0 {
      lines := lines + [PathsHeader];
      for i := 0 to |templates|
        invariant lines == [NationsLine(nations), "", PathsHeader]
          + TemplateLines(nations, config.userAgent, templates[..i])
      {
        var link := BuildLink(nations, config.userAgent, templates[i].id);
        lines := lines + [TemplateLine(templates[i].name, link)];
        assert TemplateLines(nations, config.userAgent, templates[..i + 1])
          == TemplateLines(nations, config.userAgent, templates[..i]) + [TemplateLine(templates[i].name, link)];
      }
      assert templates[..|templates|] == templates;
    }
    lines := lines + ["", CommuneLine(nations, config.userAgent)];
  }

  /**
   * The description always opens with the nations line and a blank line and
   * always closes with the generic link; templates, when there are any, add a
   * header and exactly one line each, in order.
   */
  lemma DescriptionShape(nations: seq<string>, config: Config)
    ensures var lines := DescriptionLines(nations, config);
      var t := |config.templates|;
      && |lines| == (if t > 0 then t + 5 else 4)
      && lines[0] == NationsLine(nations) && lines[1] == ""
      && lines[|lines| - 2] == "" && lines[|lines| - 1] == CommuneLine(nations, config.userAgent)
      && (t > 0 ==> lines[2] == PathsHeader)
      && (forall k :: 0 <= k < t ==>
            lines[3 + k] == TemplateLine(config.templates[k].name, BuildLink(nations, config.userAgent, config.templates[k].id)))
  {
  }

  /** The ping rides outside the embed: `<@&role>` when a role is configured, empty otherwise. */
  function RoleMention(role: string): (content: string)
    ensures content == "" <==> role == ""
    ensures role != "" ==> content == "<@&" + role + ">"
  {
    if role != "" then "<@&" + role + ">" else ""
  }

  /** What `send_to_discord` posts, apart from the colour and the footer. */
  datatype Payload = Payload(
    content: string,
    title: string,
    url: string,
    thumbnail: Option<string>,
    description: string)

  /** The payload of `send_to_discord`; the POST itself is not modelled. */
  method BuildPayload(displayStr: string, nations: seq<string>, config: Config, flagUrl: Option<string>)
    returns (p: Payload)
    ensures p.title == BannerPrefix + TitleAndUrl(displayStr).title
    ensures p.url == TitleAndUrl(displayStr).url
    ensures p.thumbnail == if flagUrl.Some? && flagUrl.value != "" then flagUrl else None
    ensures p.description == Join(DescriptionLines(nations, config), "\n")
    ensures p.content == RoleMention(config.roleToPing)
  {
    var heading := TitleAndUrl(displayStr);
    var thumbnail := if flagUrl.Some? && flagUrl.value != "" then flagUrl else None;
    var lines := AssembleDescription(nations, config);
    p := Payload(RoleMention(config.roleToPing), BannerPrefix + heading.title, heading.url,
                 thumbnail, Join(lines, "\n"));
  }

  // ---------------------------------------------------------------------
  // Start-up embed

  /** `template_lines` of `send_info_embed`: one line per template, or a placeholder. */
  function InfoTemplateLines(templates: TemplateMap): (r: seq<string>)
    ensures |templates| == 0 ==> r == [NoTemplates]
    ensures |templates| > 0 ==>
      && |r| == |templates|
      && forall k :: 0 <= k < |templates| ==> r[k] == "• **" + templates[k].name + "** (ID: `" + templates[k].id + "`)"
  {
    var lines := seq(|templates|, k requires 0 <= k < |templates| =>
      "• **" + templates[k].name + "** (ID: `" + templates[k].id + "`)");
    if |lines| == 0 then [NoTemplates] else lines
  }

  /** The "Watched Realms" field: the blacklist joined with ", ", or "_None_" when that is empty. */
  function WatchedRealms(blacklist: seq<string>): (r: string)
    ensures r == NoBlacklist <==> blacklist == [] || blacklist == [""] || Join(blacklist, ", ") == NoBlacklist
    ensures r != NoBlacklist ==> r == Join(blacklist, ", ")
  {
    JoinEmpty(blacklist, ", ");
    var joined := Join(blacklist, ", ");
    if joined == "" then NoBlacklist else joined
  }

  /** Text without some character of `t` cannot contain `t`. */
  lemma MissingCharNotContained(s: string, t: string, k: nat)
    requires k < |t| && t[k] !in s
    ensures !Contains(s, t)
  {
    forall i | 0 <= i <= |s| - |t| ensures !OccursAt(s, t, i) {
      assert s[i..i + |t|][k] == s[i + k];
    }
  }

  /** Underscores of "the_west_pacific" become spaces. */
  // The region is a parameter fixed by its precondition: with the literal
  // written into the conclusion the solver unfolds the replacement far more
  // expensively.
  lemma WestPacificSpaced(region: string)
    requires region == "the_west_pacific"
    ensures ReplaceAll(region, "_", " ") == "the west pacific"
  {
    ReplaceCharAt(region, '_', ' ');
  }

  /** Title-casing "the west pacific", one position at a time. */
  lemma WestPacificTitleAt(spaced: string, k: nat)
    requires spaced == "the west pacific" && k < |spaced|
    ensures |Title(spaced)| == |spaced| && Title(spaced)[k] == "The West Pacific"[k]
  {
    TitleAt(spaced, k);
  }

  /** The region text "the_west_pacific" is displayed as "The West Pacific". */
  lemma WestPacificDisplayed()
    ensures Title(ReplaceAll("the_west_pacific", "_", " ")) == "The West Pacific"
  {
    WestPacificSpaced("the_west_pacific");
    var spaced := ReplaceAll("the_west_pacific", "_", " ");
    WestPacificTitleAt(spaced, 0);
    forall k | 0 <= k < |spaced| ensures Title(spaced)[k] == "The West Pacific"[k] {
      WestPacificTitleAt(spaced, k);
    }
  }

  /** The heading of a founding (not a refounding) whose text names a nation and a region. */
  lemma FoundingHeading(s: string, nation: string, region: string)
    requires ExtractTargetName(s) == Some(nation) && ExtractRegion(s) == Some(region)
    requires !Contains(s, "refounded")
    ensures TitleAndUrl(s) ==
      Heading(nation + " was " + "founded" + " in " + Title(ReplaceAll(region, "_", " ")), ProfileBase + nation)
  {
    assert Verb(s) == "founded";
  }

  // The heading scenario below rests on the extraction facts about the sample proved in Markers.

  /** The sample founding text is not a refounding. */
  lemma NotRefounded()
    ensures !Contains(FoundingSample, "refounded")
  {
    assert 'r' !in FoundingSample;
    MissingCharNotContained(FoundingSample, "refounded", 0);
  }

  /**
   * The founding of "testlandia" in "%%the_west_pacific%%" is announced as
   * "testlandia was founded in The West Pacific", linking to its profile.
   */
  lemma HeadingScenario()
    ensures TitleAndUrl(FoundingSample) ==
      Heading("testlandia" + " was " + "founded" + " in " + "The West Pacific", ProfileBase + "testlandia")
  {
    TestlandiaNamed();
    WestPacificNamed();
    NotRefounded();
    WestPacificDisplayed();
    FoundingHeading(FoundingSample, "testlandia", "the_west_pacific");
  }
}
