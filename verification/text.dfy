/**
 * The Python string operations the script relies on, over ASCII:
 * `str.isdigit`, `str.lower`, `str.title`, `str.strip`, the `in` operator,
 * `str.replace`, `str.split` and `str.join`.
 */
module Text {
  import opened Wrappers

  // ---------------------------------------------------------------------
  // Characters

  predicate IsDigit(c: char) { '0' <= c <= '9' }
  predicate IsUpper(c: char) { 'A' <= c <= 'Z' }
  predicate IsLower(c: char) { 'a' <= c <= 'z' }
  predicate IsLetter(c: char) { IsUpper(c) || IsLower(c) }

  /** Whitespace as `str.isspace` sees it on ASCII: TAB to CR, the four separators 0x1C-0x1F, and space. */
  predicate IsSpace(c: char) { c == ' ' || '\t' <= c <= '\r' || '\U{1C}' <= c <= '\U{1F}' }

  function ToLower(c: char): (d: char)
    ensures !IsUpper(d)
    ensures IsLetter(d) == IsLetter(c) && IsSpace(d) == IsSpace(c)
    ensures !IsUpper(c) ==> d == c
  {
    if IsUpper(c) then (c as int + 32) as char else c
  }

  function ToUpper(c: char): (d: char)
    ensures !IsLower(d)
    ensures IsLetter(d) == IsLetter(c)
    ensures !IsLower(c) ==> d == c
  {
    if IsLower(c) then (c as int - 32) as char else c
  }

  // ---------------------------------------------------------------------
  // Case mapping

  /** `s.lower()`: every upper-case letter replaced by its lower-case form. */
  function Lower(s: string): (r: string)
    ensures |r| == |s|
    ensures forall k :: 0 <= k < |r| ==> !IsUpper(r[k])
    ensures forall k :: 0 <= k < |s| && !IsUpper(s[k]) ==> r[k] == s[k]
    ensures forall k :: 0 <= k < |s| ==> r[k] == ToLower(s[k])
  {
    seq(|s|, k requires 0 <= k < |s| => ToLower(s[k]))
  }

  lemma LowerSlice(s: string, i: nat, j: nat)
    requires i <= j <= |s|
    ensures Lower(s)[i..j] == Lower(s[i..j])
  {
  }

  lemma LowerAppend(a: string, b: string)
    ensures Lower(a + b) == Lower(a) + Lower(b)
  {
  }

  /**
   * `s.title()` scanning from left to right; `afterLetter` says whether the
   * character before `s` was a letter.
   */
  function TitleFrom(s: string, afterLetter: bool): (r: string)
    ensures |r| == |s|
  {
    if s == [] then []
    else
      var c := s[0];
      var d := if !IsLetter(c) then c else if afterLetter then ToLower(c) else ToUpper(c);
      [d] + TitleFrom(s[1..], IsLetter(c))
  }

  /** `s.title()`: a letter after a non-letter (or at the start) is upper-cased, every other letter lower-cased. */
  function Title(s: string): string
  {
    TitleFrom(s, false)
  }

  /** The character-by-character reading of `TitleFrom`. */
  lemma {:induction false} TitleFromAt(s: string, afterLetter: bool, k: nat)
    requires k < |s|
    ensures TitleFrom(s, afterLetter)[k] ==
      if !IsLetter(s[k]) then s[k]
      else if (if k == 0 then afterLetter else IsLetter(s[k - 1])) then ToLower(s[k])
      else ToUpper(s[k])
    decreases k
  {
    if k > 0 {
      TitleFromAt(s[1..], IsLetter(s[0]), k - 1);
    }
  }

  /**
   * What `title()` does at every position: non-letters are kept, a letter
   * preceded by a letter is lower-cased, any other letter is upper-cased.
   */
  lemma TitleAt(s: string, k: nat)
    requires k < |s|
    ensures |Title(s)| == |s|
    ensures !IsLetter(s[k]) ==> Title(s)[k] == s[k]
    ensures IsLetter(s[k]) && k > 0 && IsLetter(s[k - 1]) ==> Title(s)[k] == ToLower(s[k])
    ensures IsLetter(s[k]) && (k == 0 || !IsLetter(s[k - 1])) ==> Title(s)[k] == ToUpper(s[k])
  {
    TitleFromAt(s, false, k);
  }

  /** `title()` never turns a letter into a non-letter or the other way round. */
  lemma TitleKeepsKinds(s: string)
    ensures |Title(s)| == |s|
    ensures forall k :: 0 <= k < |s| ==> IsLetter(Title(s)[k]) == IsLetter(s[k])
    ensures forall k :: 0 <= k < |s| && !IsLetter(s[k]) ==> Title(s)[k] == s[k]
  {
    forall k | 0 <= k < |s|
      ensures IsLetter(Title(s)[k]) == IsLetter(s[k])
      ensures !IsLetter(s[k]) ==> Title(s)[k] == s[k]
    {
      TitleAt(s, k);
    }
  }

  lemma {:induction false} TitleFromIdempotent(s: string, afterLetter: bool)
    ensures TitleFrom(TitleFrom(s, afterLetter), afterLetter) == TitleFrom(s, afterLetter)
    decreases |s|
  {
    if s != [] {
      var t := TitleFrom(s, afterLetter);
      assert t[1..] == TitleFrom(s[1..], IsLetter(s[0]));
      assert IsLetter(t[0]) == IsLetter(s[0]);
      TitleFromIdempotent(s[1..], IsLetter(s[0]));
    }
  }

  /** Title-casing a title-cased string changes nothing. */
  lemma TitleIdempotent(s: string)
    ensures Title(Title(s)) == Title(s)
  {
    TitleFromIdempotent(s, false);
  }

  // ---------------------------------------------------------------------
  // Stripping

  /** The first index at or after `i` that does not hold whitespace (or `|s|`). */
  function SkipSpaces(s: string, i: nat): (k: nat)
    requires i <= |s|
    ensures i <= k <= |s|
    ensures forall m :: i <= m < k ==> IsSpace(s[m])
    ensures k < |s| ==> !IsSpace(s[k])
    decreases |s| - i
  {
    if i < |s| && IsSpace(s[i]) then SkipSpaces(s, i + 1) else i
  }

  /** The smallest index `k >= lo` such that `s[k..j]` is all whitespace. */
  function SkipSpacesBack(s: string, lo: nat, j: nat): (k: nat)
    requires lo <= j <= |s|
    ensures lo <= k <= j
    ensures forall m :: k <= m < j ==> IsSpace(s[m])
    ensures lo < k ==> !IsSpace(s[k - 1])
    decreases j
  {
    if lo < j && IsSpace(s[j - 1]) then SkipSpacesBack(s, lo, j - 1) else j
  }

  /** `s.strip()`: the slice of `s` left after removing leading and trailing whitespace. */
  function Strip(s: string): (r: string)
    ensures r == [] || (!IsSpace(r[0]) && !IsSpace(r[|r| - 1]))
    ensures exists i, j :: (0 <= i <= j <= |s| && r == s[i..j]
      && (forall m :: 0 <= m < i ==> IsSpace(s[m]))
      && (forall m :: j <= m < |s| ==> IsSpace(s[m])))
  {
    var i := SkipSpaces(s, 0);
    var j := SkipSpacesBack(s, i, |s|);
    assert forall m :: 0 <= m < i ==> IsSpace(s[m]);
    s[i..j]
  }

  /** A string with no whitespace at either end is left alone by `strip()`. */
  lemma StripTrimmed(s: string)
    requires s == [] || (!IsSpace(s[0]) && !IsSpace(s[|s| - 1]))
    ensures Strip(s) == s
  {
    assert SkipSpaces(s, 0) == 0;
    assert SkipSpacesBack(s, 0, |s|) == |s|;
  }

  lemma StripIdempotent(s: string)
    ensures Strip(Strip(s)) == Strip(s)
  {
    StripTrimmed(Strip(s));
  }

  // ---------------------------------------------------------------------
  // Substrings

  /** `t` occurs in `s` starting at index `i`. */
  predicate OccursAt(s: string, t: string, i: int)
  {
    0 <= i && i + |t| <= |s| && s[i..i + |t|] == t
  }

  /** Python's `t in s`. */
  predicate Contains(s: string, t: string)
  {
    exists i | 0 <= i <= |s| - |t| :: OccursAt(s, t, i)
  }

  predicate StartsWith(s: string, t: string)
  {
    OccursAt(s, t, 0)
  }

  /** The first occurrence of `t` in `s` at or after index `k`, as `str.find(t, k)` would report it. */
  function NextOccurrence(s: string, t: string, k: nat): (r: Option<nat>)
    ensures r.Some? ==> k <= r.value && OccursAt(s, t, r.value)
    ensures r.Some? ==> forall j :: k <= j < r.value ==> !OccursAt(s, t, j)
    ensures r.None? ==> forall j :: k <= j ==> !OccursAt(s, t, j)
    decreases |s| - k
  {
    if k + |t| > |s| then None
    else if OccursAt(s, t, k) then Some(k)
    else NextOccurrence(s, t, k + 1)
  }

  /** An occurrence of `t` inside a slice of `s` is an occurrence in `s`. */
  lemma OccursInSlice(s: string, t: string, i: nat, j: nat, k: int)
    requires i <= j <= |s| && OccursAt(s[i..j], t, k)
    ensures OccursAt(s, t, i + k)
  {
    forall m | 0 <= m < |t| ensures s[i + k + m] == t[m] {
      assert s[i..j][k + m] == t[m];
    }
  }

  // ---------------------------------------------------------------------
  // str.replace

  /** `s.replace(pat, rep)`: occurrences replaced from left to right without overlapping. */
  function ReplaceAll(s: string, pat: string, rep: string): (r: string)
    requires |pat| > 0
    ensures |pat| == |rep| ==> |r| == |s|
    decreases |s|
  {
    if |s| < |pat| then s
    else if s[..|pat|] == pat then rep + ReplaceAll(s[|pat|..], pat, rep)
    else [s[0]] + ReplaceAll(s[1..], pat, rep)
  }

  /** Replacing one character by another is a character-wise map. */
  lemma {:induction false} ReplaceCharAt(s: string, a: char, b: char)
    ensures |ReplaceAll(s, [a], [b])| == |s|
    ensures forall k :: 0 <= k < |s| ==> ReplaceAll(s, [a], [b])[k] == if s[k] == a then b else s[k]
    decreases |s|
  {
    if |s| > 0 {
      ReplaceCharAt(s[1..], a, b);
      assert s[..1] == [s[0]];
      var r := ReplaceAll(s, [a], [b]);
      assert r == [if s[0] == a then b else s[0]] + ReplaceAll(s[1..], [a], [b]);
      forall k | 0 <= k < |s| ensures r[k] == if s[k] == a then b else s[k] {
        if k > 0 {
          assert r[k] == ReplaceAll(s[1..], [a], [b])[k - 1];
        }
      }
    }
  }

  /** After replacing every `a` by a different `b`, no `a` is left. */
  lemma ReplaceCharRemoves(s: string, a: char, b: char)
    requires a != b
    ensures a !in ReplaceAll(s, [a], [b])
  {
    ReplaceCharAt(s, a, b);
  }

  /** When the replacement starts with the same character as the pattern, the first character is kept. */
  lemma ReplaceKeepsFirst(s: string, pat: string, rep: string)
    requires |pat| == |rep| > 0 && pat[0] == rep[0] && |s| > 0
    ensures |ReplaceAll(s, pat, rep)| == |s| && ReplaceAll(s, pat, rep)[0] == s[0]
  {
  }

  /** A prefix that holds no character starting the pattern is copied through unchanged. */
  lemma {:induction false} ReplaceAfterPrefix(p: string, s: string, pat: string, rep: string)
    requires |pat| > 0 && pat[0] !in p
    ensures ReplaceAll(p + s, pat, rep) == p + ReplaceAll(s, pat, rep)
    decreases |p|
  {
    if |p| > 0 {
      ReplaceSkips(p + s, pat, rep);
      assert (p + s)[1..] == p[1..] + s;
      assert pat[0] !in p[1..];
      ReplaceAfterPrefix(p[1..], s, pat, rep);
      assert [p[0]] + (p[1..] + ReplaceAll(s, pat, rep)) == p + ReplaceAll(s, pat, rep);
    } else {
      assert p + s == s;
    }
  }

  /** `s.replace(".svg", ".png")` leaves no ".svg" behind. */
  lemma {:induction false} ReplaceSvgRemoves(s: string)
    ensures !Contains(ReplaceAll(s, ".svg", ".png"), ".svg")
    decreases |s|
  {
    var r := ReplaceAll(s, ".svg", ".png");
    if |s| < 4 {
    } else if s[..4] == ".svg" {
      var rest := ReplaceAll(s[4..], ".svg", ".png");
      ReplaceSvgRemoves(s[4..]);
      assert r == ".png" + rest;
      forall i | 0 <= i <= |r| - 4 ensures !OccursAt(r, ".svg", i) {
        if i >= 4 {
          assert r[i..i + 4] == rest[i - 4..i];
          assert !OccursAt(rest, ".svg", i - 4);
        } else {
          assert r[i] != '.' || r[i + 1] != 's';
        }
      }
    } else {
      var rest := ReplaceAll(s[1..], ".svg", ".png");
      ReplaceSvgRemoves(s[1..]);
      assert r == [s[0]] + rest;
      forall i | 0 <= i <= |r| - 4 ensures !OccursAt(r, ".svg", i) {
        if i >= 1 {
          assert r[i..i + 4] == rest[i - 1..i + 3];
          assert !OccursAt(rest, ".svg", i - 1);
        } else {
          assert s[..4] == [s[0], s[1], s[2], s[3]];
          NoSvgAtStart(s);
          assert r[..4] == [r[0], r[1], r[2], r[3]];
        }
      }
    }
  }

  /** Where `s` does not start with ".svg", neither does its replacement. */
  lemma NoSvgAtStart(s: string)
    requires |s| >= 4 && !(s[0] == '.' && s[1] == 's' && s[2] == 'v' && s[3] == 'g')
    ensures var r := ReplaceAll(s, ".svg", ".png");
      |r| == |s| && !(r[0] == '.' && r[1] == 's' && r[2] == 'v' && r[3] == 'g')
  {
    var r := ReplaceAll(s, ".svg", ".png");
    var r1 := ReplaceAll(s[1..], ".svg", ".png");
    assert r == [s[0]] + r1;
    ReplaceKeepsFirst(s[1..], ".svg", ".png");
    if s[0] != '.' {
      assert r[0] != '.';
    } else if s[1] != 's' {
      assert r[1] != 's';
    } else {
      ReplaceSkips(s[1..], ".svg", ".png");
      var r2 := ReplaceAll(s[2..], ".svg", ".png");
      assert s[1..][1..] == s[2..];
      ReplaceKeepsFirst(s[2..], ".svg", ".png");
      if s[2] != 'v' {
        assert r[2] != 'v';
      } else {
        ReplaceSkips(s[2..], ".svg", ".png");
        assert s[2..][1..] == s[3..];
        ReplaceKeepsFirst(s[3..], ".svg", ".png");
        assert r[3] != 'g';
      }
    }
  }

  /** A first character that cannot start the pattern is copied through. */
  lemma ReplaceSkips(s: string, pat: string, rep: string)
    requires |pat| > 0 && |s| > 0 && s[0] != pat[0]
    ensures ReplaceAll(s, pat, rep) == [s[0]] + ReplaceAll(s[1..], pat, rep)
  {
    if |s| >= |pat| {
      assert s[..|pat|][0] != pat[0];
    }
  }

  // ---------------------------------------------------------------------
  // str.split and str.join

  /** `s.split(c)` for a one-character separator: always at least one piece. */
  function Split(s: string, c: char): (r: seq<string>)
    ensures |r| >= 1
    ensures forall k :: 0 <= k < |r| ==> c !in r[k]
    decreases |s|
  {
    if s == [] then [""]
    else
      var rest := Split(s[1..], c);
      if s[0] == c then [""] + rest else [[s[0]] + rest[0]] + rest[1..]
  }

  /** `sep.join(xs)`. */
  function Join(xs: seq<string>, sep: string): (r: string)
    decreases |xs|
  {
    if |xs| == 0 then ""
    else if |xs| == 1 then xs[0]
    else xs[0] + sep + Join(xs[1..], sep)
  }

  lemma JoinCons(x: string, xs: seq<string>, sep: string)
    requires |xs| > 0
    ensures Join([x] + xs, sep) == x + sep + Join(xs, sep)
  {
    assert ([x] + xs)[1..] == xs;
  }

  /** A character that is in no piece and not in the separator is not in the joined string. */
  lemma {:induction false} JoinAvoids(xs: seq<string>, sep: string, c: char)
    requires c !in sep && forall k :: 0 <= k < |xs| ==> c !in xs[k]
    ensures c !in Join(xs, sep)
    decreases |xs|
  {
    if |xs| >= 2 {
      JoinAvoids(xs[1..], sep, c);
    }
  }

  /** Splitting and re-joining with the same separator gives back the input. */
  lemma {:induction false} JoinSplit(s: string, c: char)
    ensures Join(Split(s, c), [c]) == s
    decreases |s|
  {
    if s != [] {
      var rest := Split(s[1..], c);
      JoinSplit(s[1..], c);
      if s[0] == c {
        JoinCons("", rest, [c]);
      } else if |rest| == 1 {
        assert Split(s, c) == [[s[0]] + rest[0]];
      } else {
        assert Split(s, c) == [[s[0]] + rest[0]] + rest[1..];
        JoinCons([s[0]] + rest[0], rest[1..], [c]);
        JoinCons(rest[0], rest[1..], [c]);
        assert [rest[0]] + rest[1..] == rest;
      }
    }
  }

  /** A string without the separator is a single piece. */
  lemma {:induction false} SplitWithout(s: string, c: char)
    requires c !in s
    ensures Split(s, c) == [s]
    decreases |s|
  {
    if s != [] {
      assert c !in s[1..];
      SplitWithout(s[1..], c);
      assert s[0] != c;
      assert [s[0]] + s[1..] == s;
    }
  }

  /** Splitting `a + c + b`, where `a` has no separator, yields `a` followed by the pieces of `b`. */
  lemma {:induction false} SplitAfter(a: string, b: string, c: char)
    requires c !in a
    ensures Split(a + [c] + b, c) == [a] + Split(b, c)
    decreases |a|
  {
    var s := a + [c] + b;
    if a == [] {
      assert s[1..] == b;
    } else {
      assert s[1..] == a[1..] + [c] + b;
      assert c !in a[1..];
      SplitAfter(a[1..], b, c);
      assert [a[0]] + a[1..] == a;
    }
  }

  /** Joining pieces that do not hold the separator and splitting again gives back the pieces. */
  lemma {:induction false} SplitJoin(xs: seq<string>, c: char)
    requires |xs| >= 1
    requires forall k :: 0 <= k < |xs| ==> c !in xs[k]
    ensures Split(Join(xs, [c]), c) == xs
    decreases |xs|
  {
    if |xs| == 1 {
      SplitWithout(xs[0], c);
    } else {
      SplitJoin(xs[1..], c);
      SplitAfter(xs[0], Join(xs[1..], [c]), c);
      assert [xs[0]] + xs[1..] == xs;
    }
  }

  /** `", ".join(xs)` is empty exactly when there is nothing to join or a single empty piece. */
  lemma JoinEmpty(xs: seq<string>, sep: string)
    requires |sep| > 0
    ensures Join(xs, sep) == "" <==> xs == [] || xs == [""]
  {
    if |xs| >= 2 {
      assert |Join(xs, sep)| >= |sep|;
    }
  }

  /** `s.split(c, 1)` unpacked into two names: `None` when `c` does not occur (Python raises). */
  function SplitOnce(s: string, c: char): (r: Option<(string, string)>)
    ensures r.None? <==> c !in s
    ensures r.Some? ==> r.value.0 + [c] + r.value.1 == s && c !in r.value.0
  {
    match NextOccurrence(s, [c], 0)
    case None =>
      assert forall k :: 0 <= k < |s| ==> s[k] != c by {
        forall k | 0 <= k < |s| ensures s[k] != c { assert !OccursAt(s, [c], k); }
      }
      None
    case Some(i) =>
      assert s[i] == c;
      assert c !in s[..i] by {
        forall k | 0 <= k < i ensures s[k] != c { assert !OccursAt(s, [c], k); }
      }
      assert s[..i] + [c] + s[i + 1..] == s;
      Some((s[..i], s[i + 1..]))
  }
}
