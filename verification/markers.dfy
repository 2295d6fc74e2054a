/**
 * Marker-delimited extraction: `re.search(r"@@(.*?)@@", s)` and
 * `re.search(r"%%(.*?)%%", s)`, written as an explicit leftmost search.
 *
 * The regular expression `m(.*?)m` matches at the first index `i` where an
 * opening marker starts and the NEAREST later marker `j` (at or after the end
 * of the opening one) is reached without crossing a newline (`.` does not
 * match '\n'); group 1 is the text between the two markers.
 */
module Markers {
  import opened Wrappers
  import opened Text

  const NationMarker := "@@"
  const RegionMarker := "%%"

  /** The regex `m(.*?)m` matches with the opening marker at `i` and the closing one at `j`. */
  ghost predicate IsLazyMatch(s: string, m: string, i: int, j: int)
  {
    && OccursAt(s, m, i)
    && i + |m| <= j
    && OccursAt(s, m, j)
    && (forall k :: i + |m| <= k < j ==> !OccursAt(s, m, k))
    && (forall k :: i + |m| <= k < j ==> s[k] != '\n')
  }

  /** For one opening position the lazy group has at most one end. */
  lemma LazyMatchUnique(s: string, m: string, i: int, j: int, j': int)
    requires IsLazyMatch(s, m, i, j) && IsLazyMatch(s, m, i, j')
    ensures j == j'
  {
  }

  /** The closing marker that the regex pairs with an opening marker at `i`, if any. */
  function CloseAt(s: string, m: string, i: nat): (r: Option<nat>)
    ensures r.Some? ==> IsLazyMatch(s, m, i, r.value)
    ensures r.None? ==> forall j :: !IsLazyMatch(s, m, i, j)
  {
    if !OccursAt(s, m, i) then None
    else match NextOccurrence(s, m, i + |m|)
      case None => None
      case Some(j) =>
        if '\n' in s[i + |m|..j] then
          assert forall j' :: IsLazyMatch(s, m, i, j') ==> j' == j;
          None
        else
          assert forall k :: i + |m| <= k < j ==> s[k] == s[i + |m|..j][k - i - |m|];
          Some(j)
  }

  /** The leftmost match at or after index `i`, as opening and closing positions. */
  function FirstMatchFrom(s: string, m: string, i: nat): (r: Option<(nat, nat)>)
    ensures r.Some? ==> i <= r.value.0 && IsLazyMatch(s, m, r.value.0, r.value.1)
    ensures r.Some? ==> forall i', j :: i <= i' < r.value.0 ==> !IsLazyMatch(s, m, i', j)
    ensures r.None? ==> forall i', j :: i <= i' ==> !IsLazyMatch(s, m, i', j)
    decreases |s| + 1 - i
  {
    if i > |s| then None
    else match CloseAt(s, m, i)
      case Some(j) => Some((i, j))
      case None => FirstMatchFrom(s, m, i + 1)
  }

  /** Group 1 of `re.search(m + "(.*?)" + m, s)`, or `None` when the search fails. */
  function Extract(s: string, m: string): (r: Option<string>)
    ensures r.None? <==> forall i, j :: !IsLazyMatch(s, m, i, j)
    ensures r.Some? ==> exists i, j :: (IsLazyMatch(s, m, i, j) && r.value == s[i + |m|..j]
      && forall i', j' :: IsLazyMatch(s, m, i', j') ==> i <= i')
  {
    match FirstMatchFrom(s, m, 0)
    case None => None
    case Some((i, j)) => Some(s[i + |m|..j])
  }

  /** `extract_target_name`: the text between the leftmost `@@` pair. */
  function ExtractTargetName(s: string): Option<string>
  {
    Extract(s, NationMarker)
  }

  /** The region match of `build_title_and_url`: the text between the leftmost `%%` pair. */
  function ExtractRegion(s: string): Option<string>
  {
    Extract(s, RegionMarker)
  }

  /** A successful search found its group enclosed by two markers in the text. */
  lemma ExtractEnclosed(s: string, m: string)
    requires Extract(s, m).Some?
    ensures Contains(s, m + Extract(s, m).value + m)
  {
    var i, j :| IsLazyMatch(s, m, i, j) && Extract(s, m).value == s[i + |m|..j];
    MatchEnclosed(s, m, i, j);
  }

  /** The text of a lazy match, markers included, is a slice of the searched string. */
  lemma MatchEnclosed(s: string, m: string, i: int, j: int)
    requires IsLazyMatch(s, m, i, j)
    ensures OccursAt(s, m + s[i + |m|..j] + m, i)
  {
    assert s[i..j + |m|] == s[i..i + |m|] + s[i + |m|..j] + s[j..j + |m|];
  }

  /** The extracted text never holds the marker itself, nor a newline. */
  lemma ExtractClean(s: string, m: string)
    requires |m| > 0 && Extract(s, m).Some?
    ensures !Contains(Extract(s, m).value, m)
    ensures '\n' !in Extract(s, m).value
  {
    var i, j :| IsLazyMatch(s, m, i, j) && Extract(s, m).value == s[i + |m|..j];
    GroupClean(s, m, i, j);
  }

  /** The group of one lazy match holds neither the marker nor a newline. */
  lemma GroupClean(s: string, m: string, i: int, j: int)
    requires |m| > 0 && IsLazyMatch(s, m, i, j)
    ensures !Contains(s[i + |m|..j], m) && '\n' !in s[i + |m|..j]
  {
    var r := s[i + |m|..j];
    forall k | 0 <= k <= |r| - |m| ensures !OccursAt(r, m, k) {
      if OccursAt(r, m, k) {
        OccursInSlice(s, m, i + |m|, j, k);
        assert false;
      }
    }
    forall k | 0 <= k < |r| ensures r[k] != '\n' {
      assert r[k] == s[i + |m| + k];
    }
  }

  /**
   * On newline-free text the search fails exactly when no two marker
   * occurrences appear one after the other without overlapping.
   */
  lemma ExtractWithoutNewlines(s: string, m: string)
    requires '\n' !in s
    ensures Extract(s, m).Some? <==>
      exists i, j :: OccursAt(s, m, i) && OccursAt(s, m, j) && i + |m| <= j
  {
    if i, j :| OccursAt(s, m, i) && OccursAt(s, m, j) && i + |m| <= j {
      var next := NextOccurrence(s, m, i + |m|);
      assert next.Some?;
      assert IsLazyMatch(s, m, i, next.value);
    }
  }

  /** The extracted text is exactly what lies between the leftmost opening marker and the nearest closing one. */
  lemma ExtractIsLeftmost(s: string, m: string, i: nat, j: nat)
    requires IsLazyMatch(s, m, i, j)
    requires forall i', j' :: i' < i ==> !IsLazyMatch(s, m, i', j')
    ensures Extract(s, m) == Some(s[i + |m|..j])
  {
    var first := FirstMatchFrom(s, m, 0);
    assert first.Some?;
    var i0, j0 := first.value.0, first.value.1;
    assert IsLazyMatch(s, m, i0, j0);
    assert i0 == i;
    LazyMatchUnique(s, m, i, j, j0);
  }

  /**
   * Text laid out as `pre + m + name + m + rest`, where neither `pre` nor
   * `name` holds the marker's first character and `name` has no newline,
   * yields `name`.
   */
  lemma ExtractDelimited(pre: string, m: string, name: string, rest: string)
    requires |m| > 0 && m[0] !in pre && m[0] !in name && '\n' !in name
    ensures Extract(pre + m + name + m + rest, m) == Some(name)
  {
    var s := pre + m + name + m + rest;
    var i, j := |pre|, |pre| + |m| + |name|;
    assert s[i..i + |m|] == m;
    assert s[j..j + |m|] == m;
    forall k | i + |m| <= k < j ensures !OccursAt(s, m, k) && s[k] != '\n' {
      assert s[k] == name[k - i - |m|];
    }
    forall i', j' | i' < i ensures !IsLazyMatch(s, m, i', j') {
      if 0 <= i' {
        assert s[i'] == pre[i'];
      }
    }
    assert s[i + |m|..j] == name;
    ExtractIsLeftmost(s, m, i, j);
  }

  /** `extract_target_name("@@@@")` is the empty name, not `None`. */
  lemma EmptyNameBetweenMarkers()
    ensures ExtractTargetName("@@@@") == Some("")
  {
    ExtractDelimited("", NationMarker, "", "");
    assert "" + NationMarker + "" + NationMarker + "" == "@@@@";
  }

  /** What follows the nation in the sample founding text. */
  const FoundingTail := " was founded in " + RegionMarker + "the_west_pacific" + RegionMarker + "."

  /** The sample founding text "@@testlandia@@ was founded in %%the_west_pacific%%.". */
  const FoundingSample := NationMarker + "testlandia" + NationMarker + FoundingTail

  /** The sample's nation marker pair holds "testlandia". */
  lemma TestlandiaNamed()
    ensures ExtractTargetName(FoundingSample) == Some("testlandia")
  {
    ExtractDelimited("", NationMarker, "testlandia", FoundingTail);
    assert "" + NationMarker == NationMarker;
  }

  /** The sample's region marker pair holds "the_west_pacific". */
  lemma WestPacificNamed()
    ensures ExtractRegion(FoundingSample) == Some("the_west_pacific")
  {
    var pre := NationMarker + "testlandia" + NationMarker + " was founded in ";
    assert '%' !in " was founded in ";
    ExtractDelimited(pre, RegionMarker, "the_west_pacific", ".");
    Reassociate(NationMarker, "testlandia", NationMarker, " was founded in ", RegionMarker, "the_west_pacific", ".");
  }

  /** Moving the parentheses of a five-piece tail out to the left. */
  lemma Reassociate(a: string, b: string, c: string, d: string, m: string, e: string, f: string)
    ensures a + b + c + (d + m + e + m + f) == (a + b + c + d) + m + e + m + f
  {
  }
}
