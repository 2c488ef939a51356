/** The recursive merge of internal/platform/breeds_merge.go (lines 87-178) over JSON trees:
    the template is the base, the catalog the overlay. The methods follow the source's loops; the
    functions say what they compute, and the lemmas what the merge means. */
module JsonMerge {
  import opened Basics

  datatype Json =
    | Null
    | Bool(b: bool)
    | Num(literal: string)
    | Str(s: string)
    | Arr(items: seq<Json>)
    | Obj(fields: map<string, Json>)

  type Fields = map<string, Json>

  const ATOMIC_KEYS := {"color", "voice_config"}

  predicate IsIdArray(v: Json) {
    v.Arr? && v.items != [] && forall i :: 0 <= i < |v.items| ==> v.items[i].Obj? && "id" in v.items[i].fields
  }

  function IdOf(v: Json): Option<string> {
    if v.Obj? && "id" in v.fields && v.fields["id"].Str? then Some(v.fields["id"].s) else None
  }

  // Go's failed type assertion yields the empty string.
  function IdOrEmpty(v: Json): string {
    match IdOf(v) case Some(id) => id case None => ""
  }

  // The item an id map filled in array order ends up holding.
  function LastById(items: seq<Json>, id: string): (r: Option<Json>)
    ensures r.Some? ==> r.value in items && IdOf(r.value) == Some(id)
    ensures r.None? ==> forall i :: 0 <= i < |items| ==> IdOf(items[i]) != Some(id)
  {
    if items == [] then None
    else
      var n := |items| - 1;
      if IdOf(items[n]) == Some(id) then Some(items[n]) else LastById(items[..n], id)
  }

  function Merge(base: Fields, overlay: Fields): (merged: Fields)
    ensures merged.Keys == base.Keys + overlay.Keys
    decreases Obj(overlay), 1
  {
    map k | k in base.Keys + overlay.Keys ::
      if k !in overlay then base[k]
      else if k in ATOMIC_KEYS || k !in base then overlay[k]
      else MergeValue(base[k], overlay[k])
  }

  function MergeValue(base: Json, overlay: Json): Json
    decreases overlay, 2
  {
    if IsIdArray(overlay) && IsIdArray(base) then Arr(MergeById(base.items, overlay.items))
    else if overlay.Obj? && base.Obj? then Obj(Merge(base.fields, overlay.fields))
    else overlay
  }

  function MergeItem(base: seq<Json>, o: Json): Json
    decreases o, 2
  {
    if !o.Obj? then o
    else match LastById(base, IdOrEmpty(o))
      case Some(b) => Obj(Merge(b.fields, o.fields))
      case None => o
  }

  function MergeById(base: seq<Json>, overlay: seq<Json>): seq<Json>
    decreases Arr(overlay), 1
  {
    seq(|overlay|, i requires 0 <= i < |overlay| => MergeItem(base, overlay[i])) + BaseOnly(base, SeenIds(overlay))
  }

  function SeenIds(overlay: seq<Json>): set<string> {
    set i | 0 <= i < |overlay| && overlay[i].Obj? :: IdOrEmpty(overlay[i])
  }

  function BaseOnly(base: seq<Json>, seen: set<string>): seq<Json> {
    if base == [] then []
    else
      var n := |base| - 1;
      BaseOnly(base[..n], seen) +
      if IdOf(base[n]).Some? && IdOf(base[n]).value !in seen then [base[n]] else []
  }

  // ---- the source's loops ----

  method DeepMergeConfig(base: Fields, overlay: Fields) returns (merged: Fields)
    ensures merged == Merge(base, overlay)
    decreases Obj(overlay), 1
  {
    merged := base;
    var rest := overlay.Keys;
    while rest != {}
      invariant rest <= overlay.Keys
      invariant merged.Keys == base.Keys + (overlay.Keys - rest)
      invariant forall k :: k in merged ==>
        merged[k] == if k in overlay && k !in rest then Merge(base, overlay)[k] else base[k]
      decreases rest
    {
      var k :| k in rest;
      rest := rest - {k};
      var oVal := overlay[k];
      if k in ATOMIC_KEYS || k !in merged {
        merged := merged[k := oVal];
      } else if IsIdArray(oVal) && IsIdArray(merged[k]) {
        assert oVal == Arr(oVal.items);
        var items := MergeByID(merged[k].items, oVal.items);
        merged := merged[k := Arr(items)];
      } else if oVal.Obj? && merged[k].Obj? {
        assert oVal == Obj(oVal.fields);
        var fields := DeepMergeConfig(merged[k].fields, oVal.fields);
        merged := merged[k := Obj(fields)];
      } else {
        merged := merged[k := oVal];
      }
    }
  }

  // The id map of the base array.
  method IndexById(base: seq<Json>) returns (bm: map<string, Json>)
    ensures forall id :: LastById(base, id) == if id in bm then Some(bm[id]) else None
  {
    bm := map[];
    for i := 0 to |base|
      invariant forall id :: LastById(base[..i], id) == if id in bm then Some(bm[id]) else None
    {
      assert base[..i + 1][..i] == base[..i];
      if IdOf(base[i]).Some? {
        bm := bm[IdOf(base[i]).value := base[i]];
      }
    }
    assert base[..|base|] == base;
  }

  // Base items whose id no overlay item took, appended in base order.
  method Backfill(base: seq<Json>, seen: set<string>, merged: seq<Json>) returns (result: seq<Json>)
    ensures result == merged + BaseOnly(base, seen)
  {
    result := merged;
    for i := 0 to |base|
      invariant result == merged + BaseOnly(base[..i], seen)
    {
      assert base[..i + 1][..i] == base[..i];
      if IdOf(base[i]).Some? && IdOf(base[i]).value !in seen {
        result := result + [base[i]];
      }
    }
    assert base[..|base|] == base;
  }

  // One overlay item, merged over the base item of its id when there is one.
  method MergeOverBase(bm: map<string, Json>, o: Json, ghost base: seq<Json>) returns (m: Json)
    requires o.Obj?
    requires forall id :: LastById(base, id) == if id in bm then Some(bm[id]) else None
    ensures m == MergeItem(base, o)
    decreases o, 3
  {
    var id := IdOrEmpty(o);
    assert LastById(base, id) == if id in bm then Some(bm[id]) else None;
    if id in bm {
      assert o == Obj(o.fields);
      var fields := DeepMergeConfig(bm[id].fields, o.fields);
      m := Obj(fields);
    } else {
      m := o;
    }
  }

  lemma MergedParts(base: seq<Json>, overlay: seq<Json>, merged: seq<Json>)
    requires |merged| == |overlay| && forall j :: 0 <= j < |overlay| ==> merged[j] == MergeItem(base, overlay[j])
    ensures MergeById(base, overlay) == merged + BaseOnly(base, SeenIds(overlay))
  {
  }

  // The overlay's items, merged in their order, and the ids they took.
  method MergeOverlay(bm: map<string, Json>, overlay: seq<Json>, ghost base: seq<Json>)
    returns (merged: seq<Json>, seen: set<string>)
    requires forall id :: LastById(base, id) == if id in bm then Some(bm[id]) else None
    ensures |merged| == |overlay| && forall j :: 0 <= j < |overlay| ==> merged[j] == MergeItem(base, overlay[j])
    ensures seen == SeenIds(overlay)
    decreases Arr(overlay), 0
  {
    seen := {};
    merged := [];
    for i := 0 to |overlay|
      invariant |merged| == i
      invariant forall j :: 0 <= j < i ==> merged[j] == MergeItem(base, overlay[j])
      invariant seen == SeenIds(overlay[..i])
    {
      var m := overlay[i];
      SeenSnoc(overlay, i);
      if overlay[i].Obj? {
        seen := seen + {IdOrEmpty(overlay[i])};
        m := MergeOverBase(bm, overlay[i], base);
      }
      merged := merged + [m];
    }
    assert overlay[..|overlay|] == overlay;
  }

  method MergeByID(base: seq<Json>, overlay: seq<Json>) returns (result: seq<Json>)
    ensures result == MergeById(base, overlay)
    decreases Arr(overlay), 1
  {
    var bm := IndexById(base);
    var merged, seen := MergeOverlay(bm, overlay, base);
    result := Backfill(base, seen, merged);
    MergedParts(base, overlay, merged);
  }

  lemma SeenSnoc(overlay: seq<Json>, i: nat)
    requires i < |overlay|
    ensures SeenIds(overlay[..i + 1]) ==
            SeenIds(overlay[..i]) + if overlay[i].Obj? then {IdOrEmpty(overlay[i])} else {}
  {
    var p, q := overlay[..i], overlay[..i + 1];
    forall id | id in SeenIds(q) ensures id in SeenIds(p) + if overlay[i].Obj? then {IdOrEmpty(overlay[i])} else {} {
      var j :| 0 <= j < |q| && q[j].Obj? && IdOrEmpty(q[j]) == id;
      if j < i { assert p[j] == q[j]; }
    }
    forall id | id in SeenIds(p) ensures id in SeenIds(q) {
      var j :| 0 <= j < |p| && p[j].Obj? && IdOrEmpty(p[j]) == id;
      assert q[j] == p[j];
    }
    if overlay[i].Obj? { assert q[i] == overlay[i]; }
  }
}
