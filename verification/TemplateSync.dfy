/** SyncTemplateBreeds (internal/platform/breeds_merge.go:180-265) over the settings store
    (internal/settings/file_store.go:577-725): which template dogs a restart adds to the catalog,
    over any run of restarts, user creates and user deletes. Store I/O is assumed to succeed. */
module TemplateSync {

  // A dog's variants are their ids; `body` stands for every field neither sync nor store looks at.
  datatype Breed = Breed(id: string, enabled: bool, defaultVariant: string, variants: seq<string>, body: string)

  datatype Entry = Nil | Entry(breed: Breed)

  type Template = map<string, Entry>

  datatype Store = Store(breeds: map<string, Breed>, deleted: set<string>, seen: set<string>, catalogExists: bool)

  // ---- the sync as a function ----

  /** The template map files each dog under its own id. */
  predicate KeyedById(t: Template) {
    forall k :: k in t && t[k].Entry? ==> t[k].breed.id == k
  }

  function Offered(t: Template): set<string> {
    set k | k in t && t[k].Entry? && t[k].breed.id != "" :: t[k].breed.id
  }

  // An empty seen set is seeded, for this sync only, from the catalog and the deletions.
  function EffectiveSeen(s: Store): set<string> {
    if s.seen - {""} == {} then s.breeds.Keys + (s.deleted - {""}) else s.seen - {""}
  }

  /** The dogs one sync adds to the catalog. */
  function Added(t: Template, s: Store): set<string> {
    if s.catalogExists then Offered(t) - s.breeds.Keys - EffectiveSeen(s) else {}
  }

  /** What the store makes of a dog: the first variant is the default when none is named. */
  function Filed(b: Breed): Breed {
    if b.defaultVariant == "" && b.variants != [] then b.(defaultVariant := b.variants[0]) else b
  }

  function MarkSeen(s: Store, ids: set<string>): Store {
    s.(seen := s.seen + (ids - {""}), catalogExists := s.catalogExists || !(ids - {""} <= s.seen))
  }

  // Copies of the template's dogs, switched on and filed.
  function Activated(t: Template, ids: set<string>): map<string, Breed> {
    map id | id in ids && id in t && t[id].Entry? :: Filed(t[id].breed.(enabled := true))
  }

  function AddDogs(t: Template, s: Store, ids: set<string>): Store {
    s.(breeds := s.breeds + Activated(t, ids), seen := s.seen + ids)
  }

  function Sync(t: Template, s: Store): Store {
    if s.catalogExists then AddDogs(t, s, Added(t, s))
    else
      MarkSeen(s, EffectiveSeen(s) + t.Keys)
  }

  /** The template holds the dog, switched on and filed, under some key. */
  ghost predicate Supplies(t: Template, id: string, b: Breed) {
    exists k :: k in t && t[k].Entry? && t[k].breed.id == id && b == Filed(t[k].breed.(enabled := true))
  }

  /** `s'` is `s` with dogs of the given ids from the template added and marked seen. */
  ghost predicate AddsDogs(t: Template, s: Store, ids: set<string>, s': Store) {
    && s' == s.(breeds := s'.breeds, seen := s.seen + ids)
    && s'.breeds.Keys == s.breeds.Keys + ids
    && (forall id :: id in s.breeds && id !in ids ==> s'.breeds[id] == s.breeds[id])
    && (forall id :: id in ids ==> Supplies(t, id, s'.breeds[id]))
  }

  /** A sync with any template. When two keys hold dogs of one id, either may be the one added. */
  ghost predicate SyncedBy(t: Template, s: Store, s': Store) {
    if s.catalogExists then AddsDogs(t, s, Added(t, s), s') else s' == MarkSeen(s, EffectiveSeen(s) + t.Keys)
  }

  lemma OfferedKeyed(t: Template)
    requires KeyedById(t)
    ensures forall k :: k in Offered(t) <==> k in t && t[k].Entry? && k != ""
  {
  }

  /** A template that files each dog under its own id leaves no choice. */
  lemma SyncIsFunction(t: Template, s: Store, s': Store)
    requires KeyedById(t) && SyncedBy(t, s, s')
    ensures s' == Sync(t, s)
  {
    if s.catalogExists {
      var ids := Added(t, s);
      OfferedKeyed(t);
      forall id | id in ids ensures s'.breeds[id] == Activated(t, ids)[id] {
        assert Supplies(t, id, s'.breeds[id]);
      }
      assert s'.breeds == s.breeds + Activated(t, ids);
    }
  }

  // ---- the store and the sync as the source runs them ----

  class SettingsStore {
    var breeds: map<string, Breed>
    var deleted: set<string>
    var seen: set<string>
    var catalogExists: bool

    function Value(): Store
      reads this
    {
      Store(breeds, deleted, seen, catalogExists)
    }

    /** `generated` is the id a dog without one is given. */
    method CreateBreed(b: Breed, generated: string)
      modifies this
      ensures Value() == Create(old(Value()), b, generated)
    {
      var b' := b;
      if b'.id == "" {
        b' := b'.(id := generated);
      }
      if b'.defaultVariant == "" && |b'.variants| > 0 {
        b' := b'.(defaultVariant := b'.variants[0]);
      }
      breeds := breeds[b'.id := b'];
      catalogExists := true;
    }

    method DeleteBreed(id: string) returns (found: bool)
      modifies this
      ensures found <==> id in old(breeds)
      ensures Value() == if found then Delete(old(Value()), id) else old(Value())
    {
      if id !in breeds {
        return false;
      }
      breeds := breeds - {id};
      deleted := deleted + {id};
      catalogExists := true;
      return true;
    }

    method AddSeenTemplateBreeds(ids: set<string>)
      modifies this
      ensures Value() == MarkSeen(old(Value()), ids)
    {
      var changed := false;
      var rest := ids;
      while rest != {}
        invariant rest <= ids
        invariant seen == old(seen) + (ids - rest - {""})
        invariant changed <==> !(ids - rest - {""} <= old(seen))
        invariant breeds == old(breeds) && deleted == old(deleted) && catalogExists == old(catalogExists)
        decreases rest
      {
        var id :| id in rest;
        if id != "" && id !in seen {
          seen := seen + {id};
          changed := true;
        }
        rest := rest - {id};
      }
      if changed {
        catalogExists := true;
      }
    }
  }

  function Delete(s: Store, id: string): Store {
    s.(breeds := s.breeds - {id}, deleted := s.deleted + {id}, catalogExists := true)
  }

  function Create(s: Store, b: Breed, generated: string): Store {
    var b' := Filed(if b.id == "" then b.(id := generated) else b);
    s.(breeds := s.breeds[b'.id := b'], catalogExists := true)
  }

  // The new dogs among some of the template's keys.
  function NewAmong(t: Template, s: Store, ks: set<string>): set<string> {
    set k | k in ks && k in t && t[k].Entry? && t[k].breed.id in Added(t, s) :: t[k].breed.id
  }

  lemma NewAmongAll(t: Template, s: Store)
    ensures NewAmong(t, s, t.Keys) == Added(t, s)
  {
    forall id | id in Added(t, s) ensures id in NewAmong(t, s, t.Keys) {
      var k :| k in t && t[k].Entry? && t[k].breed.id == id;
    }
  }

  lemma NewAmongStep(t: Template, s: Store, ks: set<string>, k: string)
    ensures NewAmong(t, s, ks + {k}) ==
            NewAmong(t, s, ks) + if k in t && t[k].Entry? && t[k].breed.id in Added(t, s) then {t[k].breed.id} else {}
  {
  }

  lemma AddOneDog(t: Template, s: Store, ids: set<string>, s1: Store, k: string)
    requires s.catalogExists && AddsDogs(t, s, ids, s1)
    requires k in t && t[k].Entry? && t[k].breed.id != "" && t[k].breed.id !in s.breeds
    ensures var b := t[k].breed.(enabled := true);
            AddsDogs(t, s, ids + {b.id}, MarkSeen(Create(s1, b, ""), {b.id}))
  {
    var b := t[k].breed.(enabled := true);
    var s2 := MarkSeen(Create(s1, b, ""), {b.id});
    assert {b.id} - {""} == {b.id};
    assert Supplies(t, b.id, s2.breeds[b.id]);
    forall id | id in ids + {b.id} ensures Supplies(t, id, s2.breeds[id]) {
      if id != b.id { assert s2.breeds[id] == s1.breeds[id]; }
    }
  }

  // The store holds exactly the dogs of `done` on top of `s`.
  ghost predicate Holds(store: SettingsStore, t: Template, s: Store, done: set<string>)
    reads store
  {
    AddsDogs(t, s, done, store.Value())
  }

  /** The body of the source's loop: one template entry, added when it is genuinely new. */
  method AddIfNew(t: Template, k: string, existingIDs: set<string>, seenSet: set<string>, store: SettingsStore,
      ghost s: Store, ghost done: set<string>) returns (ghost done': set<string>)
    requires k in t && s.catalogExists
    requires existingIDs == s.breeds.Keys && seenSet == EffectiveSeen(s)
    requires Holds(store, t, s, done)
    modifies store
    ensures done' == done + if t[k].Entry? && t[k].breed.id in Added(t, s) then {t[k].breed.id} else {}
    ensures Holds(store, t, s, done')
  {
    done' := done;
    var entry := t[k];
    if entry.Nil? || entry.breed.id == "" || entry.breed.id in existingIDs || entry.breed.id in seenSet {
      return;
    }
    AddOneDog(t, s, done, store.Value(), k);
    store.CreateBreed(entry.breed.(enabled := true), "");
    store.AddSeenTemplateBreeds({entry.breed.id});
    done' := done + {entry.breed.id};
  }

  /** The loop over the template, in whatever order Go ranges over it. */
  method AddNewDogs(t: Template, existingIDs: set<string>, seenSet: set<string>, store: SettingsStore)
    requires store.catalogExists
    requires existingIDs == store.breeds.Keys && seenSet == EffectiveSeen(store.Value())
    modifies store
    ensures AddsDogs(t, old(store.Value()), Added(t, old(store.Value())), store.Value())
  {
    ghost var s := store.Value();
    ghost var done: set<string> := {};
    var rest := t.Keys;
    assert t.Keys - rest == {};
    while rest != {}
      invariant rest <= t.Keys
      invariant done == NewAmong(t, s, t.Keys - rest)
      invariant Holds(store, t, s, done)
      decreases rest
    {
      var k :| k in rest;
      NewAmongStep(t, s, t.Keys - rest, k);
      assert t.Keys - (rest - {k}) == t.Keys - rest + {k};
      done := AddIfNew(t, k, existingIDs, seenSet, store, s, done);
      rest := rest - {k};
    }
    assert t.Keys - rest == t.Keys;
    NewAmongAll(t, s);
  }

  method SyncTemplateBreeds(templateBreeds: Template, store: SettingsStore)
    modifies store
    ensures SyncedBy(templateBreeds, old(store.Value()), store.Value())
    ensures KeyedById(templateBreeds) ==> store.Value() == Sync(templateBreeds, old(store.Value()))
  {
    var existingIDs := store.breeds.Keys;
    var seenSet := store.seen - {""};
    if seenSet == {} {
      seenSet := seenSet + existingIDs + (store.deleted - {""});
    }
    assert seenSet == EffectiveSeen(store.Value());
    if !store.catalogExists {
      store.AddSeenTemplateBreeds(seenSet + templateBreeds.Keys);
      return;
    }
    ghost var s := store.Value();
    AddNewDogs(templateBreeds, existingIDs, seenSet, store);
    if KeyedById(templateBreeds) {
      SyncIsFunction(templateBreeds, s, store.Value());
    }
  }

  /** A sync with any template never changes or removes a catalog dog; what it adds are the template's
      own dogs, switched on, with the first variant as default where none is named. */
  lemma SyncKeepsCatalog(t: Template, s: Store, s': Store, id: string)
    requires SyncedBy(t, s, s')
    ensures id in s.breeds ==> id in s'.breeds && s'.breeds[id] == s.breeds[id]
    ensures id in s'.breeds && id !in s.breeds <==> id in Added(t, s)
    ensures id in Added(t, s) ==> Supplies(t, id, s'.breeds[id]) && id in s'.seen
    ensures s'.deleted == s.deleted
  {
  }

  // ---- runs ----

  datatype Op = Restart(template: Template) | UserCreate(breed: Breed, generated: string) | UserDelete(id: string)

  /** One operation. A restart may leave any store its sync can leave. */
  ghost predicate StepTo(s: Store, op: Op, s': Store) {
    match op
    case Restart(t) => SyncedBy(t, s, s')
    case UserCreate(b, generated) => s' == Create(s, b, generated)
    case UserDelete(id) => s' == if id in s.breeds then Delete(s, id) else s
  }

  ghost predicate Reaches(s: Store, ops: seq<Op>, u: Store)
    decreases ops
  {
    if ops == [] then u == s else exists s1 :: StepTo(s, ops[0], s1) && Reaches(s1, ops[1..], u)
  }

  ghost function AutoAdded(s: Store, op: Op): set<string> {
    if op.Restart? then Added(op.template, s) else {}
  }

  ghost function Supplier(t: Template, id: string): (k: string)
    requires id in Offered(t)
    ensures k in t && t[k].Entry? && t[k].breed.id == id
  {
    var k :| k in t && t[k].Entry? && t[k].breed.id == id; k
  }

  /** Every template leaves some store, also one that holds two dogs of one id. */
  lemma SyncPossible(t: Template, s: Store) returns (s': Store)
    ensures SyncedBy(t, s, s')
  {
    if s.catalogExists {
      var ids := Added(t, s);
      var dogs := map id | id in ids :: Filed(t[Supplier(t, id)].breed.(enabled := true));
      s' := s.(breeds := s.breeds + dogs, seen := s.seen + ids);
      forall id | id in ids ensures Supplies(t, id, s'.breeds[id]) {
        assert s'.breeds[id] == dogs[id];
      }
    } else {
      s' := MarkSeen(s, EffectiveSeen(s) + t.Keys);
    }
  }

  lemma StepSeenGrows(s: Store, op: Op, s': Store)
    requires StepTo(s, op, s')
    ensures s.seen <= s'.seen
    ensures AutoAdded(s, op) <= s'.seen && AutoAdded(s, op) !! s.seen - {""}
    ensures "" !in AutoAdded(s, op)
  {
  }

  /** The persisted seen set only grows, whatever the templates. */
  lemma {:induction false} SeenGrows(s: Store, ops: seq<Op>, u: Store)
    requires Reaches(s, ops, u)
    ensures s.seen <= u.seen
    decreases ops
  {
    if ops != [] {
      var s1 :| StepTo(s, ops[0], s1) && Reaches(s1, ops[1..], u);
      StepSeenGrows(s, ops[0], s1);
      SeenGrows(s1, ops[1..], u);
    }
  }

  /** A dog is added by at most one restart of any run, whatever the user creates and deletes
      in between and however the template changes. */
  lemma AddedAtMostOnce(s: Store, first: Op, s1: Store, between: seq<Op>, u: Store, second: Op)
    requires StepTo(s, first, s1) && Reaches(s1, between, u)
    ensures AutoAdded(s, first) !! AutoAdded(u, second)
  {
    StepSeenGrows(s, first, s1);
    SeenGrows(s1, between, u);
  }

  /** A dog already in the persisted seen set is never added again, by any later restart. */
  lemma SeenNeverAdded(s: Store, ops: seq<Op>, u: Store, last: Op, id: string)
    requires Reaches(s, ops, u)
    requires id in s.seen && id != ""
    ensures id !in AutoAdded(u, last)
  {
    SeenGrows(s, ops, u);
  }

  // The empty id never enters the catalog or the seen set.
  ghost predicate Clean(s: Store) {
    "" !in s.seen && "" !in s.breeds && "" !in s.deleted
  }

  /** Generated ids are not empty. */
  ghost predicate NamesDogs(ops: seq<Op>) {
    forall op :: op in ops && op.UserCreate? ==> op.generated != ""
  }

  lemma {:induction false} RunKeepsClean(s: Store, ops: seq<Op>, u: Store)
    requires Clean(s) && NamesDogs(ops) && Reaches(s, ops, u)
    ensures Clean(u)
    decreases ops
  {
    if ops != [] {
      var s1 :| StepTo(s, ops[0], s1) && Reaches(s1, ops[1..], u);
      assert ops[0] in ops;
      StepSeenGrows(s, ops[0], s1);
      RunKeepsClean(s1, ops[1..], u);
    }
  }

  /** A second restart with the same template changes nothing, except in two cases: the first one
      added dogs to a catalog whose seen set was empty and the template offers a deleted dog; or the
      first one marked dogs seen before there was a catalog and the template holds a dog under another
      key than its id. */
  lemma SecondSyncIsNoOp(t: Template, s: Store, s1: Store, s2: Store)
    requires Clean(s) && SyncedBy(t, s, s1) && SyncedBy(t, s1, s2)
    ensures s2 == s1 <==>
            if s.catalogExists then
              s.seen != {} || Added(t, s) == {} || Offered(t) * s.deleted <= s.breeds.Keys
            else
              EffectiveSeen(s) + t.Keys - {""} <= s.seen || Offered(t) <= s.breeds.Keys + EffectiveSeen(s) + t.Keys
  {
    if s.catalogExists {
      AddedAgain(t, s, s1);
      NoOpIff(t, s1, s2);
    } else {
      FirstRunIsStable(t, s, s1, s2);
    }
  }

  // On a catalog a sync changes nothing exactly when it adds nothing.
  lemma NoOpIff(t: Template, s: Store, s': Store)
    requires s.catalogExists && SyncedBy(t, s, s')
    ensures s' == s <==> Added(t, s) == {}
  {
    if Added(t, s) == {} {
      assert s'.breeds == s.breeds;
    } else {
      var id :| id in Added(t, s);
      assert id in s'.breeds && id !in s.breeds;
    }
  }

  lemma AddedAgain(t: Template, s: Store, s1: Store)
    requires Clean(s) && s.catalogExists && SyncedBy(t, s, s1)
    ensures Added(t, s1) == if s.seen == {} && Added(t, s) != {} then Offered(t) * s.deleted - s.breeds.Keys else {}
  {
    assert s.seen - {""} == s.seen && s1.seen - {""} == s1.seen;
  }

  /** A restart before there is a catalog adds no dog. The next one does so only for a dog filed under
      another key than its id. */
  lemma FirstRunIsStable(t: Template, s: Store, s1: Store, s2: Store)
    requires Clean(s) && !s.catalogExists && SyncedBy(t, s, s1) && SyncedBy(t, s1, s2)
    ensures s1.breeds == s.breeds
    ensures s2 == s1 <==> EffectiveSeen(s) + t.Keys - {""} <= s.seen ||
                          Offered(t) <= s.breeds.Keys + EffectiveSeen(s) + t.Keys
    ensures KeyedById(t) ==> s2 == s1
  {
    assert s.seen - {""} == s.seen && s1.seen - {""} == s1.seen;
    assert EffectiveSeen(s) + t.Keys - {""} == EffectiveSeen(s) + (t.Keys - {""});
    if s1.catalogExists {
      assert EffectiveSeen(s1) == s1.seen;
      NoOpIff(t, s1, s2);
    }
    if KeyedById(t) { OfferedKeyed(t); }
  }

  /** Exactly when a restart brings back a dog the user deleted: the seen set is non-empty and
      does not list it. */
  lemma ResurrectsIff(t: Template, s: Store, d: string)
    requires Clean(s) && d in s.deleted && d !in s.breeds
    ensures d in Added(t, s) <==> s.catalogExists && d in Offered(t) && s.seen != {} && d !in s.seen
  {
    assert s.seen - {""} == s.seen;
  }

  /** The migration branch seeds the seen set without persisting it, so the documented promise
      never to resurrect a deleted dog fails on an old catalog: the restart after the one that adds a
      new dog brings back every deleted dog the template offers. */
  lemma OldCatalogResurrects(t: Template, s: Store, s1: Store, s2: Store, d: string)
    requires Clean(s) && s.catalogExists && s.seen == {} && Added(t, s) != {}
    requires SyncedBy(t, s, s1) && SyncedBy(t, s1, s2)
    requires d in Offered(t) && d in s.deleted && d !in s.breeds
    ensures d !in s1.breeds && d in s2.breeds
  {
    AddedAgain(t, s, s1);
    SyncKeepsCatalog(t, s, s1, d);
    SyncKeepsCatalog(t, s1, s2, d);
  }

  function Plain(id: string): Breed {
    Breed(id, false, "", [], "")
  }

  /** An old catalog and a template with which that happens. */
  lemma MigrationResurrects() returns (t: Template, s: Store, s1: Store, s2: Store)
    ensures KeyedById(t) && Clean(s) && SyncedBy(t, s, s1) && SyncedBy(t, s1, s2)
    ensures "rex" in s.deleted && "rex" !in s1.breeds && "rex" in s2.breeds
  {
    t := map["rex" := Entry(Plain("rex")), "ada" := Entry(Plain("ada"))];
    s := Store(map[], {"rex"}, {}, true);
    s1 := SyncPossible(t, s);
    s2 := SyncPossible(t, s1);
    OfferedKeyed(t);
    assert "rex" in Offered(t) && "ada" in Added(t, s);
    OldCatalogResurrects(t, s, s1, s2, "rex");
  }

  /** The user adds a dog by hand before the template offers it, then deletes it: it comes back,
      because a sync that finds the dog in the catalog does not mark it seen. */
  lemma HandAddedResurrects(t: Template, s: Store, b: Breed, u: Store)
    requires Clean(s) && s.catalogExists && s.seen != {}
    requires b.id != "" && b.id in Offered(t) && b.id !in s.seen
    requires Reaches(s, [UserCreate(b, "-"), Restart(t), UserDelete(b.id)], u)
    ensures b.id in u.deleted && b.id in AutoAdded(u, Restart(t))
  {
    var s2 := LastOfThree(s, UserCreate(b, "-"), Restart(t), UserDelete(b.id), u);
    var s1 := Create(s, b, "-");
    assert s.seen - {""} == s.seen && s1.seen == s.seen;
    assert b.id !in Added(t, s1);
    assert b.id !in s2.seen && b.id in s2.breeds;
    assert u.seen - {""} == u.seen;
    var x :| x in s.seen;
    assert x in u.seen;
  }

  lemma LastOfThree(s: Store, a: Op, b: Op, c: Op, u: Store) returns (s2: Store)
    requires Reaches(s, [a, b, c], u) && a.UserCreate?
    ensures StepTo(Create(s, a.breed, a.generated), b, s2) && StepTo(s2, c, u)
  {
    var ops := [a, b, c];
    assert ops[1..] == [b, c] && ops[1..][1..] == [c] && ops[1..][1..][1..] == [];
    var s1 :| StepTo(s, a, s1) && Reaches(s1, ops[1..], u);
    var s2' :| StepTo(s1, b, s2') && Reaches(s2', ops[1..][1..], u);
    var s3 :| StepTo(s2', c, s3) && Reaches(s3, ops[1..][1..][1..], u);
    s2 := s2';
  }

  // ---- the default variant ----

  /** `b` has the given id and all else from `a`, with its first variant as default when it names none. */
  predicate Defaulted(a: Breed, id: string, b: Breed) {
    && b.id == id && b.enabled == a.enabled && b.variants == a.variants && b.body == a.body
    && (a.defaultVariant != "" ==> b.defaultVariant == a.defaultVariant)
    && (a.defaultVariant == "" && a.variants != [] ==> b.defaultVariant == a.variants[0])
    && (a.defaultVariant == "" && a.variants == [] ==> b.defaultVariant == "")
  }

  /** A dog the user creates is in the catalog from then on, under its own id or the generated one. */
  lemma CreatedDog(s: Store, b: Breed, generated: string, s': Store)
    requires StepTo(s, UserCreate(b, generated), s')
    ensures var id := if b.id == "" then generated else b.id;
            && s'.breeds.Keys == s.breeds.Keys + {id} && Defaulted(b, id, s'.breeds[id])
            && (forall x :: x in s.breeds && x != id ==> s'.breeds[x] == s.breeds[x])
            && s' == s.(breeds := s'.breeds, catalogExists := true)
  {
  }

  /** A dog a restart adds is one of the template's, switched on. */
  lemma AddedDog(t: Template, s: Store, s': Store, id: string)
    requires StepTo(s, Restart(t), s') && id in s'.breeds && id !in s.breeds
    ensures exists k :: k in t && t[k].Entry? && t[k].breed.id == id &&
              Defaulted(t[k].breed.(enabled := true), id, s'.breeds[id])
  {
    assert id in Added(t, s);
    var k :| k in t && t[k].Entry? && t[k].breed.id == id && s'.breeds[id] == Filed(t[k].breed.(enabled := true));
    assert Defaulted(t[k].breed.(enabled := true), id, s'.breeds[id]);
  }

  /** A dog the user deletes is no longer in the catalog and among the deletions. */
  lemma DeletedDog(s: Store, id: string, s': Store)
    requires StepTo(s, UserDelete(id), s')
    ensures id !in s.breeds ==> s' == s
    ensures id in s.breeds ==>
              && s'.breeds.Keys == s.breeds.Keys - {id} && (forall x :: x in s'.breeds ==> s'.breeds[x] == s.breeds[x])
              && s' == s.(breeds := s'.breeds, deleted := s.deleted + {id}, catalogExists := true)
  {
  }
}
