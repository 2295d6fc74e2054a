/**
 * The configuration the pipeline reads, and the normalisation `setup_config`
 * applies to what the operator types in: the comma-separated blacklist and
 * the comma-separated `templateID:name` pairs. The prompts themselves and
 * the JSON file are not modelled; the typed line is a parameter.
 */
module Settings {
  import opened Wrappers
  import opened Text

  /** One entry of the `templates` dictionary: a button name and the telegram template id. */
  datatype Template = Template(name: string, id: string)

  /**
   * A Python dictionary from name to template id, kept in insertion order.
   * Labels are distinct.
   */
  type TemplateMap = seq<Template>

  predicate DistinctLabels(m: TemplateMap)
  {
    forall a, b :: 0 <= a < b < |m| ==> m[a].name != m[b].name
  }

  /** `m.get(name)`. */
  function Lookup(m: TemplateMap, name: string): (r: Option<string>)
    ensures r.None? <==> forall k :: 0 <= k < |m| ==> m[k].name != name
    ensures r.Some? ==> exists k :: 0 <= k < |m| && m[k] == Template(name, r.value)
    decreases |m|
  {
    if |m| == 0 then None
    else if m[0].name == name then Some(m[0].id)
    else
      var r := Lookup(m[1..], name);
      assert r.Some? ==> exists k :: 1 <= k < |m| && m[k] == Template(name, r.value) by {
        if r.Some? {
          var k :| 0 <= k < |m[1..]| && m[1..][k] == Template(name, r.value);
          assert m[k + 1] == m[1..][k];
        }
      }
      r
  }

  /** In a map with distinct names, looking up the name at position `k` yields the id at `k`. */
  lemma {:induction false} LookupAt(m: TemplateMap, k: nat)
    requires DistinctLabels(m) && k < |m|
    ensures Lookup(m, m[k].name) == Some(m[k].id)
    decreases k
  {
    if k > 0 {
      assert m[0].name != m[k].name;
      assert m[1..][k - 1] == m[k];
      LookupAt(m[1..], k - 1);
    }
  }

  /**
   * `m[name] = id`: an existing name keeps its position and takes the new
   * id; a new name goes to the end.
   */
  function Put(m: TemplateMap, name: string, id: string): (r: TemplateMap)
    requires DistinctLabels(m)
    ensures DistinctLabels(r)
    ensures Lookup(r, name) == Some(id)
    ensures forall other :: other != name ==> Lookup(r, other) == Lookup(m, other)
    ensures |r| == if Lookup(m, name).Some? then |m| else |m| + 1
    ensures forall k :: 0 <= k < |m| ==> r[k].name == m[k].name
  {
    if k :| 0 <= k < |m| && m[k].name == name then
      PutReplaces(m, k, name, id);
      m[k := Template(name, id)]
    else
      PutAppends(m, name, id);
      m + [Template(name, id)]
  }

  /** Overwriting the entry of an existing name keeps the labels distinct and changes only that name. */
  lemma PutReplaces(m: TemplateMap, k: int, name: string, id: string)
    requires DistinctLabels(m) && 0 <= k < |m| && m[k].name == name
    ensures var r := m[k := Template(name, id)];
      && DistinctLabels(r) && Lookup(r, name) == Some(id)
      && forall other :: other != name ==> Lookup(r, other) == Lookup(m, other)
  {
    var r := m[k := Template(name, id)];
    assert DistinctLabels(r);
    LookupAt(r, k);
    forall other | other != name ensures Lookup(r, other) == Lookup(m, other) {
      if j :| 0 <= j < |m| && m[j].name == other {
        LookupAt(r, j);
        LookupAt(m, j);
      }
    }
  }

  /** Appending a new name keeps the labels distinct and changes only that name. */
  lemma PutAppends(m: TemplateMap, name: string, id: string)
    requires DistinctLabels(m) && forall k :: 0 <= k < |m| ==> m[k].name != name
    ensures var r := m + [Template(name, id)];
      && DistinctLabels(r) && Lookup(r, name) == Some(id)
      && forall other :: other != name ==> Lookup(r, other) == Lookup(m, other)
  {
    var r := m + [Template(name, id)];
    assert DistinctLabels(r) by {
      assert forall k :: 0 <= k < |m| ==> r[k] == m[k];
    }
    LookupAt(r, |m|);
    forall other | other != name ensures Lookup(r, other) == Lookup(m, other) {
      LookupAppendOther(m, Template(name, id), other);
    }
  }

  /** Appending an entry leaves the lookup of every other name as it was. */
  lemma {:induction false} LookupAppendOther(m: TemplateMap, t: Template, other: string)
    requires other != t.name
    ensures Lookup(m + [t], other) == Lookup(m, other)
    decreases |m|
  {
    if |m| > 0 {
      assert (m + [t])[0] == m[0];
      assert (m + [t])[1..] == m[1..] + [t];
      LookupAppendOther(m[1..], t, other);
    }
  }

  /** The configuration every component reads; it never changes after start-up. */
  datatype Config = Config(
    webhook: string,
    userAgent: string,
    blacklist: seq<string>,
    templates: TemplateMap,
    roleToPing: string)

  // ---------------------------------------------------------------------
  // Blacklist

  /** One blacklist entry as typed: stripped, lower-cased, spaces turned into underscores. */
  function NormaliseRegion(piece: string): (r: string)
    ensures ' ' !in r
    ensures forall k :: 0 <= k < |r| ==> !IsUpper(r[k])
    ensures Strip(r) == r
  {
    var lowered := Lower(Strip(piece));
    ReplaceCharAt(lowered, ' ', '_');
    ReplaceAll(lowered, " ", "_")
  }

  /** The `blacklist` list built from the operator's comma-separated line. */
  function NormaliseBlacklist(line: string): (r: seq<string>)
    ensures |r| == |Split(line, ',')| && |r| >= 1
    ensures forall k :: 0 <= k < |r| ==> r[k] == NormaliseRegion(Split(line, ',')[k])
  {
    var pieces := Split(line, ',');
    seq(|pieces|, k requires 0 <= k < |pieces| => NormaliseRegion(pieces[k]))
  }

  /** Every entry of a blacklist built from operator input is lower-case, free of spaces and already stripped. */
  lemma BlacklistEntriesNormal(line: string, k: nat)
    requires k < |NormaliseBlacklist(line)|
    ensures var e := NormaliseBlacklist(line)[k];
      ' ' !in e && ',' !in e && Strip(e) == e && Lower(e) == e
  {
    var piece := Split(line, ',')[k];
    var lowered := Lower(Strip(piece));
    ReplaceCharAt(lowered, ' ', '_');
    var e := NormaliseBlacklist(line)[k];
    assert ',' !in piece;
    assert ',' !in Strip(piece);
    assert ',' !in lowered;
  }

  /** A blank blacklist line gives one empty entry, not an empty blacklist. */
  lemma BlankBlacklistLine(line: string)
    requires ',' !in line && Strip(line) == ""
    ensures NormaliseBlacklist(line) == [""]
  {
    SplitWithout(line, ',');
    assert NormaliseRegion(line) == ReplaceAll(Lower(""), " ", "_");
  }

  // ---------------------------------------------------------------------
  // Templates

  /**
   * The dictionary after the loop has handled `pairs` starting from `m`,
   * or `None` when a pair has no ':' (the unpacking raises `ValueError`).
   */
  function FillTemplates(m: TemplateMap, pairs: seq<string>): (r: Option<TemplateMap>)
    requires DistinctLabels(m)
    ensures r.Some? ==> DistinctLabels(r.value)
    decreases |pairs|
  {
    if |pairs| == 0 then Some(m)
    else match SplitOnce(pairs[0], ':')
      case None => None
      case Some((tid, name)) => FillTemplates(Put(m, Strip(name), Strip(tid)), pairs[1..])
  }

  /** The `templates` dictionary built from the operator's line: empty for a blank line. */
  function TemplatesOf(line: string): Option<TemplateMap>
  {
    var input := Strip(line);
    if input == "" then Some([]) else FillTemplates([], Split(input, ','))
  }

  /** The loop at the heart of `setup_config`, filling `template_map` pair by pair. */
  method ParseTemplates(line: string) returns (r: Option<TemplateMap>)
    ensures r == TemplatesOf(line)
  {
    var input := Strip(line);
    if input == "" {
      return Some([]);
    }
    var pairs := Split(input, ',');
    var templateMap: TemplateMap := [];
    var i := 0;
    while i < |pairs|
      invariant 0 <= i <= |pairs|
      invariant DistinctLabels(templateMap)
      invariant FillTemplates(templateMap, pairs[i..]) == FillTemplates([], pairs)
    {
      match SplitOnce(pairs[i], ':')
      case None =>
        return None;
      case Some((tid, name)) =>
        assert pairs[i..][1..] == pairs[i + 1..];
        templateMap := Put(templateMap, Strip(name), Strip(tid));
      i := i + 1;
    }
    return Some(templateMap);
  }

  /** Whether `pair` has `name` as its stripped name. */
  predicate NamesLabel(pair: string, name: string)
  {
    var split := SplitOnce(pair, ':');
    split.Some? && Strip(split.value.1) == name
  }

  /** The stripped id of the last pair in `pairs` that names `name`, scanning from the back. */
  function LastId(pairs: seq<string>, name: string): (r: Option<string>)
    decreases |pairs|
  {
    if |pairs| == 0 then None
    else
      var last := pairs[|pairs| - 1];
      if NamesLabel(last, name) then Some(Strip(SplitOnce(last, ':').value.0))
      else LastId(pairs[..|pairs| - 1], name)
  }

  /** The last pair naming `name` in `p + rest` is in `rest` if any pair there names it. */
  lemma {:induction false} LastIdFront(p: string, rest: seq<string>, name: string)
    ensures LastId([p] + rest, name) ==
      if LastId(rest, name).Some? then LastId(rest, name)
      else if NamesLabel(p, name) then Some(Strip(SplitOnce(p, ':').value.0))
      else None
    decreases |rest|
  {
    var all := [p] + rest;
    if |rest| == 0 {
      assert all[..0] == [];
    } else {
      assert all[..|all| - 1] == [p] + rest[..|rest| - 1];
      assert all[|all| - 1] == rest[|rest| - 1];
      LastIdFront(p, rest[..|rest| - 1], name);
    }
  }

  /** The template loop fails exactly when some pair has no ':'. */
  lemma {:induction false} FillTemplatesFails(m: TemplateMap, pairs: seq<string>)
    requires DistinctLabels(m)
    ensures FillTemplates(m, pairs).None? <==> exists k :: 0 <= k < |pairs| && ':' !in pairs[k]
    decreases |pairs|
  {
    if |pairs| > 0 {
      var split := SplitOnce(pairs[0], ':');
      if split.Some? {
        var m' := Put(m, Strip(split.value.1), Strip(split.value.0));
        var rest := pairs[1..];
        assert FillTemplates(m, pairs) == FillTemplates(m', rest);
        FillTemplatesFails(m', rest);
        if k :| 0 <= k < |pairs| && ':' !in pairs[k] {
          assert k != 0 && rest[k - 1] == pairs[k];
        }
        if k :| 0 <= k < |rest| && ':' !in rest[k] {
          assert pairs[k + 1] == rest[k];
        }
      }
    }
  }

  /** The template loop's first step, when the first pair has a ':'. */
  lemma FillTemplatesCons(m: TemplateMap, pairs: seq<string>)
    requires DistinctLabels(m) && |pairs| > 0 && SplitOnce(pairs[0], ':').Some?
    ensures var split := SplitOnce(pairs[0], ':').value;
      FillTemplates(m, pairs) == FillTemplates(Put(m, Strip(split.1), Strip(split.0)), pairs[1..])
  {
  }

  /** `LastId` read from the front: the later pairs decide, else the first pair if it names `name`. */
  lemma LastIdCons(pairs: seq<string>, name: string)
    requires |pairs| > 0
    ensures var later := LastId(pairs[1..], name);
      var split := SplitOnce(pairs[0], ':');
      LastId(pairs, name) ==
        if later.Some? then later
        else if split.Some? && Strip(split.value.1) == name then Some(Strip(split.value.0))
        else None
  {
    LastIdFront(pairs[0], pairs[1..], name);
    assert [pairs[0]] + pairs[1..] == pairs;
  }

  /**
   * When the template loop succeeds, a name maps to the id of the LAST pair
   * that names it (a later duplicate overwrites an earlier one); names no
   * pair mentions keep what `m` had.
   */
  lemma {:induction false} FillTemplatesLastWins(m: TemplateMap, pairs: seq<string>, name: string)
    requires DistinctLabels(m) && FillTemplates(m, pairs).Some?
    ensures Lookup(FillTemplates(m, pairs).value, name) ==
      if LastId(pairs, name).Some? then LastId(pairs, name) else Lookup(m, name)
    decreases |pairs|
  {
    if |pairs| > 0 && SplitOnce(pairs[0], ':').Some? {
      var split := SplitOnce(pairs[0], ':').value;
      var l, tid := Strip(split.1), Strip(split.0);
      var m' := Put(m, l, tid);
      FillTemplatesCons(m, pairs);
      FillTemplatesLastWins(m', pairs[1..], name);
      LastIdCons(pairs, name);
      LastWinsStep(m, l, tid, name, FillTemplates(m', pairs[1..]).value, LastId(pairs[1..], name), LastId(pairs, name));
    }
  }

  /**
   * One step of the template loop for the lookup of `name`: if the rest of
   * the loop yields `result`, whose entry for `name` is the later pairs'
   * choice `later` or else what `m` held after assigning `l := tid`, then
   * that entry is the whole loop's choice `whole` or else what `m` held.
   */
  lemma LastWinsStep(m: TemplateMap, l: string, tid: string, name: string,
                     result: TemplateMap, later: Option<string>, whole: Option<string>)
    requires DistinctLabels(m)
    requires Lookup(result, name) == if later.Some? then later else Lookup(Put(m, l, tid), name)
    requires whole == if later.Some? then later else if l == name then Some(tid) else None
    ensures Lookup(result, name) == if whole.Some? then whole else Lookup(m, name)
  {
  }

  /**
   * The dictionary parsed from the operator's line, whose comma-separated
   * pieces are `pairs`: a blank line gives no templates, a pair without ':'
   * aborts, and otherwise the last id given for a name wins.
   */
  lemma TemplatesOfSpec(line: string, pairs: seq<string>, name: string)
    requires pairs == Split(Strip(line), ',')
    ensures Strip(line) == "" ==> TemplatesOf(line) == Some([])
    ensures Strip(line) != "" ==>
      (TemplatesOf(line).None? <==> exists k :: 0 <= k < |pairs| && ':' !in pairs[k])
    ensures Strip(line) != "" && TemplatesOf(line).Some? ==>
      Lookup(TemplatesOf(line).value, name) == LastId(pairs, name)
  {
    if Strip(line) != "" {
      FillTemplatesFails([], pairs);
      if FillTemplates([], pairs).Some? {
        FillTemplatesLastWins([], pairs, name);
      }
    }
  }
}
