/** Saved filter presets (`useFilterPresets.ts`): the validator applied to
    what is read back from storage, the initial list, and save / load /
    delete over the list. Storage holds the list as JSON; the parsed value is
    an input, and the filters of a preset are kept as the JSON value they
    are. */
module Presets {
  import opened Options

  /** A parsed JSON value. Object member order is not modelled. */
  datatype Json =
    | JNull
    | JBool(b: bool)
    | JNum(n: int)
    | JStr(s: string)
    | JArr(items: seq<Json>)
    | JObj(fields: map<string, Json>)

  /** `typeof v === 'object' && v !== null`: objects and arrays. */
  predicate IsObject(v: Json) {
    v.JObj? || v.JArr?
  }

  /** `isValidFilterPreset`: an object with a string `id`, a string `name`
      and non-null object `filters`. Arrays pass the first test but have none
      of the three members. */
  predicate IsValidPreset(v: Json) {
    && v.JObj?
    && "id" in v.fields && "name" in v.fields && "filters" in v.fields
    && v.fields["id"].JStr?
    && v.fields["name"].JStr?
    && IsObject(v.fields["filters"])
  }

  datatype Preset = Preset(id: string, name: string, filters: Json)

  /** A preset as the hook can hold it. */
  predicate WellFormed(p: Preset) {
    IsObject(p.filters)
  }

  /** The stored text: absent, not JSON, or parsed. */
  datatype Stored = Missing | Unparsable | Parsed(value: Json)

  function FromJson(v: Json): (p: Preset)
    requires IsValidPreset(v)
    ensures WellFormed(p)
  {
    Preset(v.fields["id"].s, v.fields["name"].s, v.fields["filters"])
  }

  function ToJson(p: Preset): (v: Json)
    ensures WellFormed(p) ==> IsValidPreset(v)
  {
    JObj(map["id" := JStr(p.id), "name" := JStr(p.name), "filters" := p.filters])
  }

  /** `parsed.filter(isValidFilterPreset)`, as presets. */
  function ValidPresets(items: seq<Json>): (r: seq<Preset>)
    ensures |r| <= |items|
    ensures forall i :: 0 <= i < |r| ==> WellFormed(r[i])
    decreases |items|
  {
    if items == [] then []
    else
      var rest := ValidPresets(items[1..]);
      if IsValidPreset(items[0]) then [FromJson(items[0])] + rest else rest
  }

  /** The initial list: empty for missing storage, unparsable text or
      anything but an array; otherwise the array's valid elements in order. */
  function InitialPresets(stored: Stored): (r: seq<Preset>)
    ensures !(stored.Parsed? && stored.value.JArr?) ==> r == []
    ensures forall i :: 0 <= i < |r| ==> WellFormed(r[i])
  {
    match stored
    case Parsed(JArr(items)) => ValidPresets(items)
    case _ => []
  }

  /** What is written to storage. */
  function Serialize(ps: seq<Preset>): (v: Json)
    ensures v.JArr? && |v.items| == |ps|
  {
    JArr(seq(|ps|, i requires 0 <= i < |ps| => ToJson(ps[i])))
  }

  /** Reading back what was written gives the same list, so presets survive a
      reload. */
  lemma {:induction false} StorageRoundTrip(ps: seq<Preset>)
    requires forall i :: 0 <= i < |ps| ==> WellFormed(ps[i])
    ensures InitialPresets(Parsed(Serialize(ps))) == ps
    decreases |ps|
  {
    if ps != [] {
      var items := Serialize(ps).items;
      assert items[1..] == Serialize(ps[1..]).items;
      StorageRoundTrip(ps[1..]);
      assert IsValidPreset(items[0]) && FromJson(items[0]) == ps[0];
      assert [ps[0]] + ps[1..] == ps;
    }
  }

  /** The valid elements of a stored array are kept and the rest dropped,
      in order. */
  lemma InitialKeepsValid(items: seq<Json>, v: Json)
    ensures IsValidPreset(v) ==> InitialPresets(Parsed(JArr([v] + items))) == [FromJson(v)] + InitialPresets(Parsed(JArr(items)))
    ensures !IsValidPreset(v) ==> InitialPresets(Parsed(JArr([v] + items))) == InitialPresets(Parsed(JArr(items)))
  {
    assert ([v] + items)[1..] == items;
  }

  /** `savePreset`: append a preset with the given id at the end. */
  function Save(ps: seq<Preset>, id: string, name: string, filters: Json): (r: seq<Preset>)
    ensures |r| == |ps| + 1 && r[..|ps|] == ps
    ensures r[|ps|] == Preset(id, name, filters)
  {
    ps + [Preset(id, name, filters)]
  }

  /** `loadPreset`: the filters of the first preset with the id, or None. */
  function Load(ps: seq<Preset>, id: string): (r: Option<Json>)
    ensures r.None? <==> forall i :: 0 <= i < |ps| ==> ps[i].id != id
    ensures r.Some? ==> exists i :: (0 <= i < |ps| && ps[i].id == id && ps[i].filters == r.value
      && forall j :: 0 <= j < i ==> ps[j].id != id)
    decreases |ps|
  {
    if ps == [] then None
    else if ps[0].id == id then Some(ps[0].filters)
    else
      var r := Load(ps[1..], id);
      assert forall i :: 1 <= i < |ps| ==> ps[i] == ps[1..][i - 1];
      if r.Some? then
        var i :| 0 <= i < |ps[1..]| && ps[1..][i].id == id && ps[1..][i].filters == r.value
          && forall j :: 0 <= j < i ==> ps[1..][j].id != id;
        assert ps[i + 1] == ps[1..][i];
        assert forall j :: 0 <= j < i + 1 ==> ps[j].id != id by {
          forall j | 0 <= j < i + 1 ensures ps[j].id != id {
            if j > 0 { assert ps[j] == ps[1..][j - 1]; }
          }
        }
        r
      else r
  }

  /** `deletePreset`: drop every preset with the id, keeping the rest in
      order. */
  function Delete(ps: seq<Preset>, id: string): (r: seq<Preset>)
    ensures forall i :: 0 <= i < |r| ==> r[i].id != id
    ensures forall p :: p in r <==> p in ps && p.id != id
    ensures |r| <= |ps|
    decreases |ps|
  {
    if ps == [] then []
    else
      var rest := Delete(ps[1..], id);
      assert ps == [ps[0]] + ps[1..];
      if ps[0].id == id then rest else [ps[0]] + rest
  }

  /** Loading right after saving under an id no preset has returns the saved
      filters; with an id already in use the older preset still wins. */
  lemma {:induction false} LoadAfterSave(ps: seq<Preset>, id: string, name: string, filters: Json)
    ensures Load(Save(ps, id, name, filters), id) ==
      if Load(ps, id).Some? then Load(ps, id) else Some(filters)
    decreases |ps|
  {
    if ps != [] {
      assert Save(ps, id, name, filters)[1..] == Save(ps[1..], id, name, filters);
      LoadAfterSave(ps[1..], id, name, filters);
    }
  }

  /** Saving does not change what other ids load. */
  lemma {:induction false} SaveKeepsOtherLoads(ps: seq<Preset>, id: string, name: string, filters: Json, other: string)
    requires other != id
    ensures Load(Save(ps, id, name, filters), other) == Load(ps, other)
    decreases |ps|
  {
    if ps != [] {
      assert Save(ps, id, name, filters)[1..] == Save(ps[1..], id, name, filters);
      SaveKeepsOtherLoads(ps[1..], id, name, filters, other);
    }
  }

  /** After deleting an id nothing loads under it, and every other id loads
      what it loaded before. */
  lemma {:induction false} LoadAfterDelete(ps: seq<Preset>, id: string, other: string)
    ensures Load(Delete(ps, id), id).None?
    ensures other != id ==> Load(Delete(ps, id), other) == Load(ps, other)
    decreases |ps|
  {
    if ps != [] {
      LoadAfterDelete(ps[1..], id, other);
      if ps[0].id != id {
        assert ([ps[0]] + Delete(ps[1..], id))[1..] == Delete(ps[1..], id);
      }
    }
  }

  /** `deletePreset` is a filter: it works preset by preset, so deleting
      from two runs of presets is deleting from each, and the kept presets
      stay in their order with their repetitions. */
  lemma {:induction false} DeleteAppend(a: seq<Preset>, b: seq<Preset>, id: string)
    ensures Delete(a + b, id) == Delete(a, id) + Delete(b, id)
    decreases |a|
  {
    if a == [] {
      assert a + b == b;
    } else {
      assert (a + b)[0] == a[0];
      assert (a + b)[1..] == a[1..] + b;
      DeleteAppend(a[1..], b, id);
    }
  }

  /** One preset is dropped exactly when it has the id. */
  lemma DeleteOne(p: Preset, id: string)
    ensures Delete([p], id) == if p.id == id then [] else [p]
  {
    assert [p][1..] == [];
  }

  /** A tail of presets with other ids is kept as it is. */
  lemma DeleteIsFilter(ps: seq<Preset>, id: string, keep: seq<Preset>)
    requires forall p :: p in keep ==> p.id != id
    ensures Delete(ps + keep, id) == Delete(ps, id) + keep
  {
    DeleteAppend(ps, keep, id);
    DeleteNone(keep, id);
  }

  lemma {:induction false} DeleteNone(ps: seq<Preset>, id: string)
    requires forall p :: p in ps ==> p.id != id
    ensures Delete(ps, id) == ps
    decreases |ps|
  {
    if ps != [] {
      DeleteNone(ps[1..], id);
      assert [ps[0]] + ps[1..] == ps;
    }
  }

  /** Saving and then deleting a fresh id gives back the list. */
  lemma SaveThenDelete(ps: seq<Preset>, id: string, name: string, filters: Json)
    requires forall p :: p in ps ==> p.id != id
    ensures Delete(Save(ps, id, name, filters), id) == ps
  {
    DeleteIsFilter(ps, id, []);
    DeleteNone(ps, id);
    assert Save(ps, id, name, filters) == ps + [Preset(id, name, filters)];
    DeleteLast(ps, Preset(id, name, filters));
  }

  lemma {:induction false} DeleteLast(ps: seq<Preset>, p: Preset)
    requires forall q :: q in ps ==> q.id != p.id
    ensures Delete(ps + [p], p.id) == ps
    decreases |ps|
  {
    if ps == [] {
      assert ([] + [p])[1..] == [];
    } else {
      assert (ps + [p])[1..] == ps[1..] + [p];
      DeleteLast(ps[1..], p);
      assert [ps[0]] + ps[1..] == ps;
    }
  }
}
