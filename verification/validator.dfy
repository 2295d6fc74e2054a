/**
 * `is_valid_event`: whether a decoded founding event is forwarded. The
 * diagnostic `log_debug` calls are not modelled.
 */
module Validator {
  import opened Wrappers
  import opened Text
  import opened Markers

  /** A decoded event: the JSON object of one "message" frame, with string values. */
  type Event = map<string, string>

  /** The nation passes when it was found, is non-empty and does not end in a digit (a puppet). */
  predicate NationAcceptable(nation: Option<string>)
  {
    nation.Some? && nation.value != "" && !IsDigit(nation.value[|nation.value| - 1])
  }

  /** The text searched for a blacklist entry: `f"%%{region.strip()}%%"`. */
  function RegionTag(entry: string): string
  {
    RegionMarker + Strip(entry) + RegionMarker
  }

  /** Some blacklist entry, wrapped in `%%`, occurs in the lower-cased event text. */
  predicate Blacklisted(text: string, blacklist: seq<string>)
  {
    exists entry | entry in blacklist :: Contains(Lower(text), RegionTag(entry))
  }

  /** The forwarding rule as a whole. */
  predicate IsValidEvent(event: Event, blacklist: seq<string>)
  {
    && "str" in event
    && NationAcceptable(ExtractTargetName(event["str"]))
    && !Blacklisted(event["str"], blacklist)
  }

  /** Blacklisting read position by position, as the script's loop scans the list. */
  lemma BlacklistedAt(text: string, blacklist: seq<string>)
    ensures Blacklisted(text, blacklist) <==>
      exists k :: 0 <= k < |blacklist| && Contains(Lower(text), RegionTag(blacklist[k]))
  {
    if Blacklisted(text, blacklist) {
      var entry :| entry in blacklist && Contains(Lower(text), RegionTag(entry));
      var k :| 0 <= k < |blacklist| && blacklist[k] == entry;
    }
  }

  /** `is_valid_event` as the script runs it: two guards, then the blacklist scan. */
  method CheckEvent(event: Event, blacklist: seq<string>) returns (valid: bool)
    ensures valid == IsValidEvent(event, blacklist)
  {
    if "str" !in event {
      return false;
    }
    var nation := ExtractTargetName(event["str"]);
    if nation.None? || nation.value == "" || IsDigit(nation.value[|nation.value| - 1]) {
      return false;
    }
    var hit := ScanBlacklist(event["str"], blacklist);
    return !hit;
  }

  /** The `for region in blacklist` loop: it stops at the first entry whose tag occurs in the lower-cased text. */
  method ScanBlacklist(text: string, blacklist: seq<string>) returns (hit: bool)
    ensures hit == Blacklisted(text, blacklist)
  {
    for i := 0 to |blacklist|
      invariant forall k :: 0 <= k < i ==> !Contains(Lower(text), RegionTag(blacklist[k]))
    {
      if Contains(Lower(text), RegionTag(blacklist[i])) {
        assert blacklist[i] in blacklist;
        return true;
      }
    }
    BlacklistedAt(text, blacklist);
    return false;
  }

  /** Without the `str` field an event is never forwarded. */
  lemma MissingTextRejected(event: Event, blacklist: seq<string>)
    requires "str" !in event
    ensures !IsValidEvent(event, blacklist)
  {
  }

  /** A nation ending in a digit is dropped whatever the blacklist holds. */
  lemma PuppetRejected(event: Event, blacklist: seq<string>)
    requires "str" in event
    requires var n := ExtractTargetName(event["str"]); n.Some? && n.value != "" && IsDigit(n.value[|n.value| - 1])
    ensures !IsValidEvent(event, blacklist)
  {
  }

  /** Only the membership of the blacklist matters, not its order or repetitions. */
  lemma BlacklistOrderIrrelevant(event: Event, b1: seq<string>, b2: seq<string>)
    requires forall e :: e in b1 <==> e in b2
    ensures IsValidEvent(event, b1) == IsValidEvent(event, b2)
  {
  }

  /**
   * Only the event text is lower-cased, so an entry that still has an
   * upper-case letter after stripping can never match.
   */
  lemma UppercaseEntryNeverMatches(text: string, entry: string, k: nat)
    requires k < |Strip(entry)| && IsUpper(Strip(entry)[k])
    ensures !Contains(Lower(text), RegionTag(entry))
  {
    var tag := RegionTag(entry);
    var low := Lower(text);
    forall i | 0 <= i <= |low| - |tag| ensures !OccursAt(low, tag, i) {
      assert low[i + 2 + k] != tag[2 + k];
    }
  }

  /**
   * Case-insensitive blacklisting: if the event text holds `%%r%%` for a
   * region `r` whose lower-cased form is a (stripped) blacklist entry, the
   * event is dropped.
   */
  lemma BlacklistedRegionRejected(event: Event, blacklist: seq<string>, r: string, entry: string)
    requires "str" in event && Contains(event["str"], RegionMarker + r + RegionMarker)
    requires entry in blacklist && Lower(r) == Strip(entry)
    ensures !IsValidEvent(event, blacklist)
  {
    var text := event["str"];
    var t := RegionMarker + r + RegionMarker;
    var i :| 0 <= i <= |text| - |t| && OccursAt(text, t, i);
    LowerSlice(text, i, i + |t|);
    LowerAppend(RegionMarker + r, RegionMarker);
    LowerAppend(RegionMarker, r);
    assert Lower(RegionMarker) == RegionMarker;
    assert OccursAt(Lower(text), RegionTag(entry), i);
  }

  /** The rule read as a whole: the event passes exactly when none of the three rejections applies. */
  lemma ValidIffNoRejection(event: Event, blacklist: seq<string>)
    ensures IsValidEvent(event, blacklist) <==>
      && "str" in event
      && ExtractTargetName(event["str"]).Some?
      && (var n := ExtractTargetName(event["str"]).value; n != "" && !IsDigit(n[|n| - 1]))
      && (forall k :: 0 <= k < |blacklist| ==> !Contains(Lower(event["str"]), RegionTag(blacklist[k])))
  {
    if "str" in event {
      var text := event["str"];
      BlacklistedAt(text, blacklist);
      assert IsValidEvent(event, blacklist) <==> NationAcceptable(ExtractTargetName(text)) && !Blacklisted(text, blacklist);
    }
  }

  /** `"@@testlandia@@ was founded in %%the_west_pacific%%."` with an empty blacklist is forwarded. */
  lemma FoundingScenario()
    ensures IsValidEvent(map["str" := FoundingSample], [])
  {
    TestlandiaNamed();
  }

  /** The same sample text with "the_west_pacific" on the blacklist is dropped. */
  lemma FoundingBlacklisted()
    ensures !IsValidEvent(map["str" := FoundingSample], ["the_west_pacific"])
  {
    var pre := NationMarker + "testlandia" + NationMarker + " was founded in ";
    var r := "the_west_pacific";
    var t := RegionMarker + r + RegionMarker;
    Reassociate(NationMarker, "testlandia", NationMarker, " was founded in ", RegionMarker, r, ".");
    assert FoundingSample == pre + t + ".";
    assert FoundingSample[|pre|..|pre| + |t|] == t;
    assert OccursAt(FoundingSample, t, |pre|);
    assert Lower(r) == r;
    StripTrimmed(r);
    BlacklistedRegionRejected(map["str" := FoundingSample], [r], r, r);
  }

  /**
   * `"%%The_West_Pacific%%"` anywhere in the event text is dropped by the
   * blacklist entry "the_west_pacific", whatever surrounds it.
   */
  lemma BlacklistScenario(s: string, pre: string, post: string, r: string, entry: string)
    requires r == "The_West_Pacific" && entry == "the_west_pacific"
    requires s == pre + RegionMarker + r + RegionMarker + post
    ensures !IsValidEvent(map["str" := s], [entry])
  {
    var t := RegionMarker + r + RegionMarker;
    assert s == pre + t + post;
    assert s[|pre|..|pre| + |t|] == t;
    assert OccursAt(s, t, |pre|);
    assert Lower(r) == entry;
    StripTrimmed(entry);
    BlacklistedRegionRejected(map["str" := s], [entry], r, entry);
  }

  /** A nation named like a puppet, "puppet123", is never forwarded. */
  lemma PuppetScenario(s: string, rest: string, blacklist: seq<string>)
    requires s == NationMarker + "puppet123" + NationMarker + rest
    ensures !IsValidEvent(map["str" := s], blacklist)
  {
    ExtractDelimited("", NationMarker, "puppet123", rest);
    assert "" + NationMarker == NationMarker;
  }

  /**
   * An empty blacklist entry (what a blank or trailing-comma blacklist line
   * leaves behind) drops every event whose text holds an empty region pair.
   */
  lemma EmptyEntryBlocksEmptyRegion(event: Event, blacklist: seq<string>)
    requires "" in blacklist && "str" in event && Contains(event["str"], "%%%%")
    ensures !IsValidEvent(event, blacklist)
  {
    assert RegionMarker + "" + RegionMarker == "%%%%";
    assert Strip("") == "";
    BlacklistedRegionRejected(event, blacklist, "", "");
  }
}
