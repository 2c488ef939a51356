/** What the template merge promises: re-running it changes nothing, the overlay wins, the base
    only fills gaps, and nothing is invented. */
module JsonMergeLaws {
  import opened Basics
  import opened JsonMerge

  predicate UniqueIds(items: seq<Json>) {
    && (forall i :: 0 <= i < |items| ==> IdOf(items[i]).Some?)
    && (forall i, j :: 0 <= i < j < |items| ==> IdOf(items[i]) != IdOf(items[j]))
  }

  /** Wherever the merge can reach, id-keyed arrays have unique string ids. */
  predicate WellKeyed(v: Json) {
    match v
    case Arr(items) =>
      IsIdArray(v) ==> UniqueIds(items) && forall i :: 0 <= i < |items| ==> WellKeyed(items[i])
    case Obj(fields) => forall k :: k in fields && k !in ATOMIC_KEYS ==> WellKeyed(fields[k])
    case _ => true
  }

  // ---- ids under merging ----

  lemma LastByIdAt(items: seq<Json>, i: nat)
    requires UniqueIds(items) && i < |items|
    ensures LastById(items, IdOf(items[i]).value) == Some(items[i])
  {
    var r := LastById(items, IdOf(items[i]).value);
    var j :| 0 <= j < |items| && items[j] == r.value;
    assert i == j;
  }

  // An item keeps its id when the base item it matches is merged in.
  lemma MergeItemKeepsId(base: seq<Json>, o: Json)
    requires o.Obj? && "id" in o.fields
    ensures MergeItem(base, o).Obj? && "id" in MergeItem(base, o).fields
    ensures IdOf(MergeItem(base, o)) == IdOf(o)
  {
    var l := LastById(base, IdOrEmpty(o));
    if l.Some? {
      assert MergeValue(l.value.fields["id"], o.fields["id"]) == o.fields["id"];
    }
  }

  lemma {:induction false} BaseOnlyFilters(base: seq<Json>, seen: set<string>)
    ensures forall v :: v in BaseOnly(base, seen) <==>
              v in base && IdOf(v).Some? && IdOf(v).value !in seen
  {
    if base != [] {
      var n := |base| - 1;
      assert base == base[..n] + [base[n]];
      BaseOnlyFilters(base[..n], seen);
    }
  }

  lemma {:induction false} BaseOnlyEmpty(base: seq<Json>, seen: set<string>)
    requires forall i :: 0 <= i < |base| ==> IdOf(base[i]).Some? ==> IdOf(base[i]).value in seen
    ensures BaseOnly(base, seen) == []
  {
    if base != [] {
      BaseOnlyEmpty(base[..|base| - 1], seen);
    }
  }

  lemma MergedIsIdArray(b: Json, o: Json)
    requires IsIdArray(b) && IsIdArray(o)
    ensures IsIdArray(Arr(MergeById(b.items, o.items)))
  {
    var r := MergeById(b.items, o.items);
    BaseOnlyFilters(b.items, SeenIds(o.items));
    forall i | 0 <= i < |r| ensures r[i].Obj? && "id" in r[i].fields {
      if i < |o.items| {
        MergeItemKeepsId(b.items, o.items[i]);
      } else {
        assert r[i] in BaseOnly(b.items, SeenIds(o.items));
      }
    }
  }

  // Every base id is taken, by an overlay item or by the base item itself.
  lemma EveryBaseIdTaken(b: Json, o: Json, i: nat)
    requires IsIdArray(b) && IsIdArray(o) && UniqueIds(b.items) && UniqueIds(o.items) && i < |b.items|
    ensures IdOf(b.items[i]).value in SeenIds(MergeById(b.items, o.items))
  {
    var seen := SeenIds(o.items);
    var r := MergeById(b.items, o.items);
    var id := IdOf(b.items[i]).value;
    if id in seen {
      var j :| 0 <= j < |o.items| && o.items[j].Obj? && IdOrEmpty(o.items[j]) == id;
      MergeItemKeepsId(b.items, o.items[j]);
      assert r[j] == MergeItem(b.items, o.items[j]);
    } else {
      BaseOnlyFilters(b.items, seen);
      assert b.items[i] in BaseOnly(b.items, seen);
      var j :| 0 <= j < |BaseOnly(b.items, seen)| && BaseOnly(b.items, seen)[j] == b.items[i];
      assert r[|o.items| + j] == b.items[i];
    }
  }

  // ---- merging a tree with itself ----

  lemma {:induction false} MergeSelfValue(v: Json)
    requires WellKeyed(v)
    ensures MergeValue(v, v) == v
    decreases v
  {
    match v {
      case Obj(fields) =>
        forall k | k in fields ensures Merge(fields, fields)[k] == fields[k] {
          if k !in ATOMIC_KEYS { MergeSelfValue(fields[k]); }
        }
        assert Merge(fields, fields) == fields;
      case Arr(items) =>
        if IsIdArray(v) {
          forall i | 0 <= i < |items| ensures MergeItem(items, items[i]) == items[i] {
            LastByIdAt(items, i);
            MergeSelfValue(items[i]);
          }
          forall i | 0 <= i < |items| ensures IdOf(items[i]).value in SeenIds(items) {
            assert IdOrEmpty(items[i]) == IdOf(items[i]).value;
          }
          BaseOnlyEmpty(items, SeenIds(items));
          assert MergeById(items, items) == items;
        }
      case _ =>
    }
  }

  // ---- merging twice ----

  lemma {:induction false} AbsorbValue(b: Json, o: Json)
    requires WellKeyed(b) && WellKeyed(o)
    ensures MergeValue(b, MergeValue(b, o)) == MergeValue(b, o)
    decreases o, 1
  {
    if IsIdArray(o) && IsIdArray(b) {
      AbsorbArray(b, o);
    } else if o.Obj? && b.Obj? {
      var m := Merge(b.fields, o.fields);
      forall k | k in m ensures Merge(b.fields, m)[k] == m[k] {
        if k !in ATOMIC_KEYS && k in b.fields {
          if k in o.fields { AbsorbValue(b.fields[k], o.fields[k]); } else { MergeSelfValue(b.fields[k]); }
        }
      }
      assert Merge(b.fields, m) == m;
    }
  }

  lemma {:induction false} AbsorbArray(b: Json, o: Json)
    requires WellKeyed(b) && WellKeyed(o) && IsIdArray(b) && IsIdArray(o)
    ensures MergeValue(b, MergeValue(b, o)) == MergeValue(b, o)
    decreases o, 0
  {
    var r := MergeById(b.items, o.items);
    MergedIsIdArray(b, o);
    forall i | 0 <= i < |r| ensures MergeItem(b.items, r[i]) == r[i] {
      if i < |o.items| {
        AbsorbItem(b, o, i);
      } else {
        BaseOnlyFilters(b.items, SeenIds(o.items));
        assert r[i] in BaseOnly(b.items, SeenIds(o.items));
        var j :| 0 <= j < |b.items| && b.items[j] == r[i];
        LastByIdAt(b.items, j);
        MergeSelfValue(b.items[j]);
      }
    }
    forall i | 0 <= i < |b.items| ensures IdOf(b.items[i]).value in SeenIds(r) {
      EveryBaseIdTaken(b, o, i);
    }
    BaseOnlyEmpty(b.items, SeenIds(r));
    assert MergeById(b.items, r) == r;
  }

  lemma {:induction false} AbsorbItem(b: Json, o: Json, i: nat)
    requires WellKeyed(b) && WellKeyed(o) && IsIdArray(b) && IsIdArray(o) && i < |o.items|
    ensures MergeItem(b.items, MergeItem(b.items, o.items[i])) == MergeItem(b.items, o.items[i])
    decreases o, 0, 0
  {
    var x := o.items[i];
    MergeItemKeepsId(b.items, x);
    var l := LastById(b.items, IdOrEmpty(x));
    if l.Some? {
      var j :| 0 <= j < |b.items| && b.items[j] == l.value;
      AbsorbValue(b.items[j], x);
    }
  }

  /** Re-running the template merge changes nothing. */
  lemma MergeAbsorbs(b: Fields, o: Fields)
    requires WellKeyed(Obj(b)) && WellKeyed(Obj(o))
    ensures Merge(b, Merge(b, o)) == Merge(b, o)
    ensures Merge(b, b) == b
  {
    AbsorbValue(Obj(b), Obj(o));
    MergeSelfValue(Obj(b));
  }

  // ---- exactly when merging changes nothing ----

  /** Every base item with a string id is answered by some overlay item. */
  predicate IdsTaken(base: seq<Json>, overlay: seq<Json>) {
    forall i :: 0 <= i < |base| && IdOf(base[i]).Some? ==> IdOf(base[i]).value in SeenIds(overlay)
  }

  /** `o` covers `b`: it has every key of `b` and every id, and what both hold in a place the merge
      descends into is covered in turn. Trees of different kinds leave nothing to cover. */
  predicate Covers(o: Json, b: Json)
    decreases o
  {
    if IsIdArray(o) && IsIdArray(b) then
      && IdsTaken(b.items, o.items)
      && forall i :: 0 <= i < |o.items| ==> CoversLast(o.items[i], b.items)
    else if o.Obj? && b.Obj? then CoversFields(o, b.fields)
    else true
  }

  predicate CoversFields(o: Json, base: Fields)
    requires o.Obj?
    decreases o, 0
  {
    && base.Keys <= o.fields.Keys
    && forall k :: k in base && k !in ATOMIC_KEYS ==> Covers(o.fields[k], base[k])
  }

  // The item covers the last base item that answers to its id.
  predicate CoversLast(x: Json, base: seq<Json>)
    decreases x, 1
  {
    x.Obj? ==>
      match LastById(base, IdOrEmpty(x))
      case Some(l) => CoversFields(x, l.fields)
      case None => true
  }

  lemma BaseOnlyEmptyIff(base: seq<Json>, overlay: seq<Json>)
    ensures BaseOnly(base, SeenIds(overlay)) == [] <==> IdsTaken(base, overlay)
  {
    BaseOnlyFilters(base, SeenIds(overlay));
    if IdsTaken(base, overlay) {
      BaseOnlyEmpty(base, SeenIds(overlay));
    } else {
      var i :| 0 <= i < |base| && IdOf(base[i]).Some? && IdOf(base[i]).value !in SeenIds(overlay);
      assert base[i] in BaseOnly(base, SeenIds(overlay));
    }
  }

  lemma MergeByIdSameIff(base: seq<Json>, overlay: seq<Json>)
    ensures MergeById(base, overlay) == overlay <==>
            IdsTaken(base, overlay) && forall i :: 0 <= i < |overlay| ==> MergeItem(base, overlay[i]) == overlay[i]
  {
    var r := MergeById(base, overlay);
    BaseOnlyEmptyIff(base, overlay);
    assert |r| == |overlay| + |BaseOnly(base, SeenIds(overlay))|;
    forall i | 0 <= i < |overlay| ensures r[i] == MergeItem(base, overlay[i]) {}
  }

  lemma MergeSameIff(base: Fields, overlay: Fields)
    ensures Merge(base, overlay) == overlay <==>
            base.Keys <= overlay.Keys &&
            forall k :: k in base && k in overlay && k !in ATOMIC_KEYS ==> MergeValue(base[k], overlay[k]) == overlay[k]
  {
    var m := Merge(base, overlay);
    if m == overlay {
      assert base.Keys <= m.Keys;
      forall k | k in base && k in overlay && k !in ATOMIC_KEYS ensures MergeValue(base[k], overlay[k]) == overlay[k] {
        assert m[k] == overlay[k];
      }
    } else if base.Keys <= overlay.Keys {
      assert m.Keys == overlay.Keys;
      var k :| k in m && m[k] != overlay[k];
    }
  }

  /** Merging leaves the overlay as it is exactly when the overlay covers the base. */
  lemma {:induction false} MergeIsOverlayIff(b: Json, o: Json)
    ensures MergeValue(b, o) == o <==> Covers(o, b)
    decreases o
  {
    if IsIdArray(o) && IsIdArray(b) {
      MergeByIdSameIff(b.items, o.items);
      forall i | 0 <= i < |o.items| ensures MergeItem(b.items, o.items[i]) == o.items[i] <==>
          CoversLast(o.items[i], b.items) {
        var l := LastById(b.items, IdOrEmpty(o.items[i]));
        if l.Some? {
          FieldsAreOverlayIff(l.value.fields, o.items[i]);
        }
      }
    } else if o.Obj? && b.Obj? {
      FieldsAreOverlayIff(b.fields, o);
    }
  }

  lemma {:induction false} FieldsAreOverlayIff(base: Fields, o: Json)
    requires o.Obj?
    ensures Merge(base, o.fields) == o.fields <==> CoversFields(o, base)
    decreases o, 0
  {
    MergeSameIff(base, o.fields);
    forall k | k in base && k in o.fields && k !in ATOMIC_KEYS
      ensures MergeValue(base[k], o.fields[k]) == o.fields[k] <==> Covers(o.fields[k], base[k])
    {
      MergeIsOverlayIff(base[k], o.fields[k]);
    }
  }

  /** No reachable array holds an item that fails to cover a later one of its id. An item that is
      the last of its id is looked into; any other only has to cover the last. */
  predicate SelfSettled(v: Json)
    decreases v
  {
    match v
    case Arr(items) =>
      IsIdArray(v) ==> forall i :: 0 <= i < |items| ==>
        (match LastById(items, IdOrEmpty(items[i]))
         case Some(l) => if l == items[i] then SelfSettled(items[i]) else CoversFields(items[i], l.fields)
         case None => true)
    case Obj(fields) => forall k :: k in fields && k !in ATOMIC_KEYS ==> SelfSettled(fields[k])
    case _ => true
  }

  lemma {:induction false} CoversSelfIff(v: Json)
    ensures Covers(v, v) <==> SelfSettled(v)
    decreases v
  {
    match v {
      case Arr(items) =>
        if IsIdArray(v) {
          forall i | 0 <= i < |items| && IdOf(items[i]).Some? ensures IdOf(items[i]).value in SeenIds(items) {
            assert IdOrEmpty(items[i]) == IdOf(items[i]).value;
          }
          forall i | 0 <= i < |items| { CoversSelfIff(items[i]); }
        }
      case Obj(fields) =>
        forall k | k in fields { CoversSelfIff(fields[k]); }
      case _ =>
    }
  }

  /** Merging a tree with itself changes nothing exactly when, wherever the merge can reach, every
      item covers the last item with its id: repeated ids as such do no harm. */
  lemma MergeSelfIff(b: Fields)
    ensures Merge(b, b) == b <==> SelfSettled(Obj(b))
  {
    FieldsAreOverlayIff(b, Obj(b));
    CoversSelfIff(Obj(b));
  }

  /** What re-running the merge needs of the two trees it started from. */
  predicate Absorbs(b: Json, o: Json)
    decreases o
  {
    if IsIdArray(o) && IsIdArray(b) then
      && (forall i :: 0 <= i < |o.items| ==>
            (match LastById(b.items, IdOrEmpty(o.items[i]))
             case Some(l) => AbsorbsFields(l.fields, o.items[i])
             case None => true))
      && (forall i :: 0 <= i < |b.items| && IdOf(b.items[i]).Some? && IdOf(b.items[i]).value !in SeenIds(o.items) ==>
            CoversLast(b.items[i], b.items))
    else if o.Obj? && b.Obj? then AbsorbsFields(b.fields, o)
    else true
  }

  // A key the overlay lacks is taken from the base, and merged with itself the second time.
  predicate AbsorbsFields(base: Fields, o: Json)
    requires o.Obj?
    decreases o, 0
  {
    forall k :: k in base && k !in ATOMIC_KEYS ==>
      if k in o.fields then Absorbs(base[k], o.fields[k]) else SelfSettled(base[k])
  }

  // An id present among the base items is taken in the merged array.
  lemma BaseIdsTaken(b: Json, o: Json)
    requires IsIdArray(b) && IsIdArray(o)
    ensures IdsTaken(b.items, MergeById(b.items, o.items))
  {
    var seen := SeenIds(o.items);
    var r := MergeById(b.items, o.items);
    forall i | 0 <= i < |b.items| && IdOf(b.items[i]).Some? ensures IdOf(b.items[i]).value in SeenIds(r) {
      var id := IdOf(b.items[i]).value;
      if id in seen {
        var j :| 0 <= j < |o.items| && o.items[j].Obj? && IdOrEmpty(o.items[j]) == id;
        MergeItemKeepsId(b.items, o.items[j]);
        assert r[j] == MergeItem(b.items, o.items[j]);
      } else {
        BaseOnlyFilters(b.items, seen);
        var j :| 0 <= j < |BaseOnly(b.items, seen)| && BaseOnly(b.items, seen)[j] == b.items[i];
        assert r[|o.items| + j] == b.items[i];
      }
    }
  }

  // Merging leaves every item of the list as it is.
  predicate Stays(base: seq<Json>, items: seq<Json>) {
    forall i :: 0 <= i < |items| ==> MergeItem(base, items[i]) == items[i]
  }

  lemma StaysConcat(base: seq<Json>, a: seq<Json>, c: seq<Json>)
    ensures Stays(base, a + c) <==> Stays(base, a) && Stays(base, c)
  {
    if Stays(base, a + c) {
      forall i | 0 <= i < |a| ensures MergeItem(base, a[i]) == a[i] { assert (a + c)[i] == a[i]; }
      forall i | 0 <= i < |c| ensures MergeItem(base, c[i]) == c[i] { assert (a + c)[|a| + i] == c[i]; }
    }
  }

  function Merged(base: seq<Json>, overlay: seq<Json>): (merged: seq<Json>)
    ensures |merged| == |overlay| && forall i :: 0 <= i < |overlay| ==> merged[i] == MergeItem(base, overlay[i])
  {
    seq(|overlay|, i requires 0 <= i < |overlay| => MergeItem(base, overlay[i]))
  }

  // Merging again, list by list: the overlay's merged items first, then the base-only ones.
  lemma MergedAgainIff(b: Json, o: Json)
    requires IsIdArray(b) && IsIdArray(o)
    ensures var r := MergeById(b.items, o.items);
            MergeById(b.items, r) == r <==>
            Stays(b.items, Merged(b.items, o.items)) && Stays(b.items, BaseOnly(b.items, SeenIds(o.items)))
  {
    var r := MergeById(b.items, o.items);
    BaseIdsTaken(b, o);
    MergeByIdSameIff(b.items, r);
    assert Stays(b.items, r) <==> MergeById(b.items, r) == r;
    MergedParts(b.items, o.items, Merged(b.items, o.items));
    StaysConcat(b.items, Merged(b.items, o.items), BaseOnly(b.items, SeenIds(o.items)));
  }

  /** Re-running the merge changes nothing exactly when the two trees absorb. */
  lemma {:induction false} AbsorbsIff(b: Json, o: Json)
    ensures MergeValue(b, MergeValue(b, o)) == MergeValue(b, o) <==> Absorbs(b, o)
    decreases o
  {
    if IsIdArray(o) && IsIdArray(b) {
      MergedIsIdArray(b, o);
      MergedAgainIff(b, o);
      forall i | 0 <= i < |o.items|
        ensures MergeItem(b.items, MergeItem(b.items, o.items[i])) == MergeItem(b.items, o.items[i]) <==>
                (match LastById(b.items, IdOrEmpty(o.items[i]))
                 case Some(l) => AbsorbsFields(l.fields, o.items[i])
                 case None => true)
      {
        MergeItemKeepsId(b.items, o.items[i]);
        var l := LastById(b.items, IdOrEmpty(o.items[i]));
        if l.Some? {
          AbsorbsFieldsIff(l.value.fields, o.items[i]);
        }
      }
      BaseOnlyCovers(b, o);
    } else if o.Obj? && b.Obj? {
      AbsorbsFieldsIff(b.fields, o);
    }
  }

  lemma BaseOnlyCovers(b: Json, o: Json)
    requires IsIdArray(b) && IsIdArray(o)
    ensures Stays(b.items, BaseOnly(b.items, SeenIds(o.items))) <==>
            forall i :: 0 <= i < |b.items| && IdOf(b.items[i]).Some? && IdOf(b.items[i]).value !in SeenIds(o.items) ==>
              CoversLast(b.items[i], b.items)
  {
    BaseOnlyFilters(b.items, SeenIds(o.items));
    forall i | 0 <= i < |b.items| ensures MergeItem(b.items, b.items[i]) == b.items[i] <==>
        CoversLast(b.items[i], b.items) {
      var l := LastById(b.items, IdOrEmpty(b.items[i]));
      if l.Some? {
        FieldsAreOverlayIff(l.value.fields, b.items[i]);
      }
    }
  }

  lemma {:induction false} AbsorbsFieldsIff(base: Fields, o: Json)
    requires o.Obj?
    ensures Merge(base, Merge(base, o.fields)) == Merge(base, o.fields) <==> AbsorbsFields(base, o)
    decreases o, 0
  {
    var m := Merge(base, o.fields);
    MergeSameIff(base, m);
    forall k | k in base && k !in ATOMIC_KEYS
      ensures MergeValue(base[k], m[k]) == m[k] <==>
              if k in o.fields then Absorbs(base[k], o.fields[k]) else SelfSettled(base[k])
    {
      if k in o.fields {
        AbsorbsIff(base[k], o.fields[k]);
      } else {
        MergeIsOverlayIff(base[k], base[k]);
        CoversSelfIff(base[k]);
      }
    }
  }

  /** A repeated id can break absorption: a tree that changes when merged with itself. */
  lemma RepeatedIdsBreakAbsorption()
    ensures exists b: Fields :: !WellKeyed(Obj(b)) && Merge(b, b) != b
  {
    var x := Obj(map["id" := Str("a"), "p" := Null]);
    var y := Obj(map["id" := Str("a"), "q" := Null]);
    var items := [x, y];
    var b: Fields := map["variants" := Arr(items)];
    assert IsIdArray(b["variants"]);
    assert IdOf(items[0]) == IdOf(items[1]) == Some("a");
    assert !WellKeyed(b["variants"]) && "variants" in b;
    assert LastById(items, "a") == Some(y);
    assert !SelfSettled(b["variants"]) by {
      assert items[0] == x && LastById(items, IdOrEmpty(items[0])) == Some(y);
      assert "q" in y.fields && "q" !in x.fields;
    }
    MergeSelfIff(b);
    assert !WellKeyed(Obj(b)) && Merge(b, b) != b;
  }

  /** And it need not: items of one id that cover each other stay put, and so does an item whose id
      is no string. */
  lemma RepeatedIdsMayBeHarmless()
    ensures var b: Fields := map["variants" := Arr([Obj(map["id" := Str("a")]), Obj(map["id" := Str("a")])])];
            !WellKeyed(Obj(b)) && Merge(b, b) == b
    ensures var b: Fields := map["variants" := Arr([Obj(map["id" := Num("1")])])];
            !WellKeyed(Obj(b)) && Merge(b, b) == b
  {
    SameItemTwice("variants", Obj(map["id" := Str("a")]));
    NumberedItem("variants", Obj(map["id" := Num("1")]));
  }

  lemma SameItemTwice(k: string, x: Json)
    requires k !in ATOMIC_KEYS && IdOf(x).Some? && SelfSettled(x)
    ensures var b: Fields := map[k := Arr([x, x])]; !WellKeyed(Obj(b)) && Merge(b, b) == b
  {
    var items, b: Fields := [x, x], map[k := Arr([x, x])];
    assert items[0] == items[1];
    assert !WellKeyed(b[k]) && k in b;
    assert LastById(items, IdOf(x).value) == Some(x);
    MergeSelfIff(b);
  }

  lemma NumberedItem(k: string, x: Json)
    requires k !in ATOMIC_KEYS && x.Obj? && "id" in x.fields && IdOf(x).None?
    ensures var b: Fields := map[k := Arr([x])]; !WellKeyed(Obj(b)) && Merge(b, b) == b
  {
    var items, b: Fields := [x], map[k := Arr([x])];
    assert IdOf(items[0]).None?;
    assert !WellKeyed(b[k]) && k in b;
    MergeSelfIff(b);
  }

  // ---- path by path ----

  datatype Seg = Key(k: string) | Elem(id: string)

  function FirstById(items: seq<Json>, id: string): Option<Json> {
    if items == [] then None
    else if IdOf(items[0]) == Some(id) then Some(items[0])
    else FirstById(items[1..], id)
  }

  function Child(v: Json, s: Seg): Option<Json> {
    match s
    case Key(k) => if v.Obj? && k in v.fields then Some(v.fields[k]) else None
    case Elem(id) => if IsIdArray(v) then FirstById(v.items, id) else None
  }

  function Lookup(v: Json, p: seq<Seg>): Option<Json>
    decreases p
  {
    if p == [] then Some(v)
    else match Child(v, p[0])
      case Some(c) => Lookup(c, p[1..])
      case None => None
  }

  predicate Container(v: Json) {
    v.Obj? || IsIdArray(v)
  }

  /** The tree decides the value at `p` by itself: the path ends in a leaf or runs through an
      atomic key. */
  predicate Decides(v: Json, p: seq<Seg>)
    decreases p
  {
    if p == [] then !Container(v)
    else
      && Child(v, p[0]).Some?
      && ((p[0].Key? && p[0].k in ATOMIC_KEYS) || Decides(Child(v, p[0]).value, p[1..]))
  }

  lemma {:induction false} FirstByIdIn(items: seq<Json>, id: string)
    ensures var r := FirstById(items, id); r.Some? ==> r.value in items && IdOf(r.value) == Some(id)
    ensures FirstById(items, id).None? ==> forall i :: 0 <= i < |items| ==> IdOf(items[i]) != Some(id)
  {
    if items != [] {
      FirstByIdIn(items[1..], id);
      forall i | 0 < i < |items| ensures items[i] == items[1..][i - 1] {}
    }
  }

  lemma {:induction false} FirstByIdConcat(a: seq<Json>, b: seq<Json>, id: string)
    ensures FirstById(a + b, id) == if FirstById(a, id).Some? then FirstById(a, id) else FirstById(b, id)
  {
    if a == [] {
      assert a + b == b;
    } else {
      assert (a + b)[1..] == a[1..] + b;
      FirstByIdConcat(a[1..], b, id);
    }
  }

  // Merging items one by one keeps which of them answers to an id.
  lemma {:induction false} FirstByIdMapped(base: seq<Json>, o: seq<Json>, id: string)
    requires forall i :: 0 <= i < |o| ==> o[i].Obj? && "id" in o[i].fields
    ensures var m := seq(|o|, i requires 0 <= i < |o| => MergeItem(base, o[i]));
            FirstById(m, id) == match FirstById(o, id) case Some(x) => Some(MergeItem(base, x)) case None => None
  {
    if o != [] {
      var m := seq(|o|, i requires 0 <= i < |o| => MergeItem(base, o[i]));
      MergeItemKeepsId(base, o[0]);
      var t := o[1..];
      FirstByIdMapped(base, t, id);
      assert m[1..] == seq(|t|, i requires 0 <= i < |t| => MergeItem(base, t[i]));
    }
  }

  lemma MergedChild(b: Json, o: Json, id: string)
    requires IsIdArray(b) && IsIdArray(o)
    ensures Child(MergeValue(b, o), Elem(id)) ==
            match FirstById(o.items, id)
            case Some(x) => Some(MergeItem(b.items, x))
            case None => FirstById(BaseOnly(b.items, SeenIds(o.items)), id)
  {
    MergedIsIdArray(b, o);
    FirstByIdMapped(b.items, o.items, id);
    FirstByIdConcat(seq(|o.items|, i requires 0 <= i < |o.items| => MergeItem(b.items, o.items[i])),
      BaseOnly(b.items, SeenIds(o.items)), id);
  }

  /** The overlay wins: what it decides, it decides against every base. */
  lemma {:induction false} OverlayWins(b: Json, o: Json, p: seq<Seg>)
    requires Decides(o, p)
    ensures Lookup(MergeValue(b, o), p) == Lookup(o, p)
    decreases p
  {
    if p != [] {
      match p[0] {
        case Key(k) =>
          if o.Obj? && b.Obj? && k in b.fields && k !in ATOMIC_KEYS {
            OverlayWins(b.fields[k], o.fields[k], p[1..]);
          }
        case Elem(id) =>
          if IsIdArray(b) {
            MergedChild(b, o, id);
            var x := FirstById(o.items, id).value;
            FirstByIdIn(o.items, id);
            var l := LastById(b.items, id);
            if l.Some? {
              OverlayWins(l.value, x, p[1..]);
            }
          }
      }
    }
  }

  /** The overlay is silent at `p`: along the path both trees are containers of one kind until the
      overlay has no entry for the next step. */
  predicate Silent(b: Json, o: Json, p: seq<Seg>)
    decreases p
  {
    && p != []
    && Child(b, p[0]).Some?
    && (if p[0].Key? then o.Obj? else IsIdArray(o))
    && (Child(o, p[0]).Some? ==>
          !(p[0].Key? && p[0].k in ATOMIC_KEYS) &&
          Silent(Child(b, p[0]).value, Child(o, p[0]).value, p[1..]))
  }

  lemma {:induction false} BaseOnlyFirst(base: seq<Json>, seen: set<string>, id: string)
    requires id !in seen
    ensures FirstById(BaseOnly(base, seen), id) == FirstById(base, id)
  {
    if base != [] {
      var n := |base| - 1;
      BaseOnlyFirst(base[..n], seen, id);
      assert base == base[..n] + [base[n]];
      FirstByIdConcat(base[..n], [base[n]], id);
      FirstByIdConcat(BaseOnly(base[..n], seen),
        if IdOf(base[n]).Some? && IdOf(base[n]).value !in seen then [base[n]] else [], id);
    }
  }

  lemma NotSeen(o: Json, id: string)
    requires IsIdArray(o) && UniqueIds(o.items) && FirstById(o.items, id).None?
    ensures id !in SeenIds(o.items)
  {
    FirstByIdIn(o.items, id);
  }

  lemma FirstIsLast(items: seq<Json>, id: string)
    requires UniqueIds(items)
    ensures FirstById(items, id) == LastById(items, id)
  {
    FirstByIdIn(items, id);
    if FirstById(items, id).Some? {
      var i :| 0 <= i < |items| && items[i] == FirstById(items, id).value;
      LastByIdAt(items, i);
    }
  }

  /** The base backfills: where the overlay is silent, the base's value appears unchanged. */
  lemma {:induction false} BaseBackfills(b: Json, o: Json, p: seq<Seg>)
    requires WellKeyed(b) && WellKeyed(o) && Silent(b, o, p)
    ensures Lookup(MergeValue(b, o), p) == Lookup(b, p)
    decreases p
  {
    match p[0] {
      case Key(k) =>
        if k in o.fields {
          BaseBackfills(b.fields[k], o.fields[k], p[1..]);
        }
      case Elem(id) =>
        MergedChild(b, o, id);
        FirstIsLast(b.items, id);
        FirstByIdIn(o.items, id);
        FirstByIdIn(b.items, id);
        if FirstById(o.items, id).Some? {
          BaseBackfills(FirstById(b.items, id).value, FirstById(o.items, id).value, p[1..]);
        } else {
          NotSeen(o, id);
          BaseOnlyFirst(b.items, SeenIds(o.items), id);
        }
    }
  }

  /** Nothing is invented: every leaf of the result is a leaf of the overlay or of the base at
      the same path. */
  lemma {:induction false} NothingInvented(b: Json, o: Json, p: seq<Seg>)
    requires WellKeyed(b) && WellKeyed(o)
    requires Lookup(MergeValue(b, o), p).Some? && !Container(Lookup(MergeValue(b, o), p).value)
    ensures Lookup(MergeValue(b, o), p) == Lookup(o, p) || Lookup(MergeValue(b, o), p) == Lookup(b, p)
    decreases p
  {
    if IsIdArray(o) && IsIdArray(b) {
      MergedIsIdArray(b, o);
      assert p != [];
      if p[0].Elem? {
        var id := p[0].id;
        MergedChild(b, o, id);
        FirstIsLast(b.items, id);
        FirstByIdIn(o.items, id);
        FirstByIdIn(b.items, id);
        if FirstById(o.items, id).None? {
          NotSeen(o, id);
          BaseOnlyFirst(b.items, SeenIds(o.items), id);
        } else if FirstById(b.items, id).Some? {
          NothingInvented(FirstById(b.items, id).value, FirstById(o.items, id).value, p[1..]);
        }
      }
    } else if o.Obj? && b.Obj? {
      assert p != [];
      if p[0].Key? {
        var k := p[0].k;
        if k in b.fields && k in o.fields && k !in ATOMIC_KEYS {
          NothingInvented(b.fields[k], o.fields[k], p[1..]);
        }
      }
    }
  }

  // ---- order of merged arrays ----

  function IdsOf(items: seq<Json>): seq<Option<string>> {
    seq(|items|, i requires 0 <= i < |items| => IdOf(items[i]))
  }

  // The ids of `ids`, in order, that are not among `taken`.
  function NotAmong(ids: seq<Option<string>>, taken: seq<Option<string>>): seq<Option<string>> {
    if ids == [] then []
    else
      var n := |ids| - 1;
      NotAmong(ids[..n], taken) + if ids[n] in taken then [] else [ids[n]]
  }

  lemma {:induction false} BaseOnlyIds(base: seq<Json>, o: seq<Json>)
    requires forall i :: 0 <= i < |o| ==> IdOf(o[i]).Some?
    requires forall i :: 0 <= i < |base| ==> IdOf(base[i]).Some?
    ensures IdsOf(BaseOnly(base, SeenIds(o))) == NotAmong(IdsOf(base), IdsOf(o))
  {
    if base != [] {
      var n := |base| - 1;
      BaseOnlyIds(base[..n], o);
      assert IdsOf(base)[..n] == IdsOf(base[..n]);
      var id := IdOf(base[n]);
      assert id.value in SeenIds(o) <==> id in IdsOf(o) by {
        if id.value in SeenIds(o) {
          var j :| 0 <= j < |o| && o[j].Obj? && IdOrEmpty(o[j]) == id.value;
          assert IdsOf(o)[j] == id;
        }
        if id in IdsOf(o) {
          var j :| 0 <= j < |o| && IdsOf(o)[j] == id;
          assert IdOrEmpty(o[j]) == id.value;
        }
      }
      var tail := if id.value !in SeenIds(o) then [base[n]] else [];
      assert IdsOf(BaseOnly(base[..n], SeenIds(o)) + tail) == IdsOf(BaseOnly(base[..n], SeenIds(o))) + IdsOf(tail);
    }
  }

  /** A merged array lists the overlay's ids in their order, then the base's other ids in theirs. */
  lemma MergedOrder(b: Json, o: Json)
    requires IsIdArray(b) && IsIdArray(o)
    requires forall i :: 0 <= i < |o.items| ==> IdOf(o.items[i]).Some?
    requires forall i :: 0 <= i < |b.items| ==> IdOf(b.items[i]).Some?
    ensures IdsOf(MergeById(b.items, o.items)) == IdsOf(o.items) + NotAmong(IdsOf(b.items), IdsOf(o.items))
  {
    var r := MergeById(b.items, o.items);
    var rest := BaseOnly(b.items, SeenIds(o.items));
    BaseOnlyIds(b.items, o.items);
    forall i | 0 <= i < |r| ensures IdsOf(r)[i] == (IdsOf(o.items) + IdsOf(rest))[i] {
      if i < |o.items| {
        MergeItemKeepsId(b.items, o.items[i]);
      } else {
        assert r[i] == rest[i - |o.items|];
      }
    }
  }

  // ---- one step of the merge, field by field ----

  predicate BothNested(a: Json, b: Json) {
    (a.Obj? && b.Obj?) || (a.Arr? && b.Arr?)
  }

  /** What the merge of two objects holds under a key: the side that has it, the overlay's value whole for
      the two keys of an agent's look and voice, and for two objects under any other key their merge. */
  lemma MergedField(base: Fields, overlay: Fields, k: string)
    requires k in base || k in overlay
    ensures var m := Merge(base, overlay);
            && k in m
            && (k !in overlay ==> m[k] == base[k])
            && (k !in base ==> m[k] == overlay[k])
            && (k in overlay && (k == "color" || k == "voice_config") ==> m[k] == overlay[k])
            && (k in base && k in overlay && k != "color" && k != "voice_config" && base[k].Obj? && overlay[k].Obj? ==>
                m[k].Obj? && m[k].fields.Keys == base[k].fields.Keys + overlay[k].fields.Keys &&
                m[k].fields == Merge(base[k].fields, overlay[k].fields))
            && (k in base && k in overlay && !BothNested(base[k], overlay[k]) ==>
                m[k] == overlay[k])
  {
  }

  /** Two arrays under one key are merged item by item exactly when neither is empty and every item of both
      is an object with an "id"; otherwise the overlay's array stands. */
  lemma MergedArrays(base: Fields, overlay: Fields, k: string, xs: seq<Json>, ys: seq<Json>)
    requires k in base && k in overlay && base[k] == Arr(xs) && overlay[k] == Arr(ys)
    requires k != "color" && k != "voice_config"
    ensures Merge(base, overlay)[k] ==
            if xs != [] && ys != [] && (forall x :: x in xs + ys ==> x.Obj? && "id" in x.fields)
            then Arr(MergeById(xs, ys)) else Arr(ys)
  {
    if IsIdArray(overlay[k]) && IsIdArray(base[k]) {
      forall x | x in xs + ys ensures x.Obj? && "id" in x.fields {}
    } else if xs != [] && ys != [] && (forall x :: x in xs + ys ==> x.Obj? && "id" in x.fields) {
      forall i | 0 <= i < |xs| ensures xs[i].Obj? && "id" in xs[i].fields { assert xs[i] in xs + ys; }
      forall i | 0 <= i < |ys| ensures ys[i].Obj? && "id" in ys[i].fields { assert ys[i] in xs + ys; }
    }
  }

  /** Item by item: an overlay item meets the last base item with the same text as "id", and stays as it is
      when there is none. */
  lemma MergedItem(base: seq<Json>, overlay: seq<Json>, i: nat, id: string)
    requires i < |overlay| && overlay[i].Obj? && "id" in overlay[i].fields && overlay[i].fields["id"] == Str(id)
    ensures forall j :: 0 <= j < |base| && IsLastWithId(base, j, id) ==>
              MergeById(base, overlay)[i] == Obj(Merge(base[j].fields, overlay[i].fields))
    ensures (forall j :: 0 <= j < |base| ==> !HoldsId(base[j], id)) ==> MergeById(base, overlay)[i] == overlay[i]
  {
    LastByIdIs(base, id);
    forall x: Json ensures IdOf(x) == Some(id) <==> HoldsId(x, id) {}
  }

  predicate HoldsId(x: Json, id: string) {
    x.Obj? && "id" in x.fields && x.fields["id"] == Str(id)
  }

  predicate IsLastWithId(items: seq<Json>, j: nat, id: string)
    requires j < |items|
  {
    HoldsId(items[j], id) && forall l :: j < l < |items| ==> !HoldsId(items[l], id)
  }

  lemma {:induction false} LastByIdIs(items: seq<Json>, id: string)
    ensures forall j :: 0 <= j < |items| && IsLastWithId(items, j, id) ==> LastById(items, id) == Some(items[j])
    ensures (forall j :: 0 <= j < |items| ==> !HoldsId(items[j], id)) ==> LastById(items, id) == None
  {
    if items != [] {
      var n := |items| - 1;
      LastByIdIs(items[..n], id);
      forall j | 0 <= j < n ensures items[..n][j] == items[j] {}
    }
  }

  /** Behind the overlay's items stand, in base order, the base items with a text as "id" that no object of
      the overlay has. */
  lemma BackfilledItems(base: seq<Json>, overlay: seq<Json>, x: Json)
    ensures |MergeById(base, overlay)| >= |overlay|
    ensures x in MergeById(base, overlay)[|overlay|..] <==>
            x in base && exists id :: HoldsId(x, id) && !Taken(overlay, id)
  {
    BaseOnlyFilters(base, SeenIds(overlay));
    assert MergeById(base, overlay)[|overlay|..] == BaseOnly(base, SeenIds(overlay));
    forall id ensures id in SeenIds(overlay) <==> Taken(overlay, id) {}
    if IdOf(x).Some? { assert HoldsId(x, IdOf(x).value); }
  }

  /** An object of the overlay has the id; one without a text as "id" counts for the empty one. */
  predicate Taken(overlay: seq<Json>, id: string) {
    exists i :: 0 <= i < |overlay| && overlay[i].Obj? &&
      if "id" in overlay[i].fields && overlay[i].fields["id"].Str? then overlay[i].fields["id"].s == id else id == ""
  }
}
