/** What each post step trusts, and the proof that validation establishes it. These are the
    obligations under which no reference or existence check of a post step can throw. */
module MetaReady {
  import opened Sai
  import opened Stored
  import opened MetaState
  import opened RefBags
  import opened MetaInvariant
  import opened MetaSteps
  import opened MetaRuns

  predicate Counted(refs: References, oids: seq<Oid>) {
    forall o <- oids :: o == NULL_OID || o in refs
  }

  /** Counted at least as often as the oid occurs here. */
  ghost predicate Covered(refs: References, oids: seq<Oid>) {
    forall o <- oids :: o == NULL_OID || (o in refs && refs[o] >= multiset(oids)[o])
  }

  /** The post steps handle this attribute and every oid it holds is counted. */
  ghost predicate ReadyAt(m: Meta, t: ObjectType, counted: set<Oid>, a: Attribute) {
    StoredOk(m, t, a.id, a.value) && forall o <- Refs(a.value) :: o == NULL_OID || o in counted
  }

  ghost predicate AllReady(m: Meta, t: ObjectType, counted: set<Oid>, attrs: seq<Attribute>) {
    forall i: nat :: i < |attrs| ==> ReadyAt(m, t, counted, attrs[i])
  }

  lemma StoredUpToAll(attrs: seq<Attribute>)
    ensures StoredUpTo(attrs, |attrs|) == StoredAttrs(attrs)
  {
    assert attrs[..|attrs|] == attrs;
  }

  /** A value that does not print refers to nothing. */
  lemma UnprintedRefs(refs: References, v: Value)
    requires !Storable(v)
    ensures Refs(v) == [] && Added(refs, multiset(Refs(v))) == refs
  {
    SameMap(Added(refs, multiset(Refs(v))), refs);
  }

  /** The first `i` attributes print. */
  predicate MayStopAt(attrs: seq<Attribute>, i: nat)
    requires i <= |attrs|
  {
    StorableUpTo(attrs, i) && Stops(attrs, 0) == Stops(attrs, i)
  }

  lemma StopsAfter(attrs: seq<Attribute>, i: nat)
    requires i < |attrs| && MayStopAt(attrs, i)
    ensures Storable(attrs[i].value) ==> MayStopAt(attrs, i + 1)
    ensures !Storable(attrs[i].value) ==> !AllStorable(attrs) && Stops(attrs, 0) == i
  {
  }

  lemma StopsNever(attrs: seq<Attribute>)
    requires MayStopAt(attrs, |attrs|)
    ensures AllStorable(attrs) && Stops(attrs, 0) == |attrs|
    ensures StoredUpTo(attrs, |attrs|) == StoredAttrs(attrs)
  {
    StoredUpToAll(attrs);
  }

  /** Metadata is known for every attribute. */
  predicate AllKnown(m: Meta, t: ObjectType, attrs: seq<Attribute>) {
    forall i: nat :: i < |attrs| ==> m.Has(t, attrs[i].id)
  }

  predicate StorableUpTo(attrs: seq<Attribute>, i: nat)
    requires i <= |attrs|
  {
    forall j: nat :: j < i ==> Storable(attrs[j].value)
  }

  /** What the post step of create trusts. */
  ghost predicate CreateReady(m: Meta, db: Db, key: MetaKey, sw: Oid, attrs: seq<Attribute>) {
    && NULL_OID !in db.refs && NewKey(m, db, key) && Distinct(attrs) && Typed(m, key.Type(), attrs)
    && key.Type() != NULL_TYPE
    && Counted(db.refs, key.Members())
    && (key.OidKey? && key.objectType != SWITCH ==> m.switchOf(key.oid) == sw && sw in db.refs)
    && AllReady(m, key.Type(), db.refs.Keys, attrs)
  }

  /** What the post step of set trusts. */
  ghost predicate SetReady(m: Meta, db: Db, key: MetaKey, a: Attribute) {
    && NULL_OID !in db.refs && key in db.store
    && ReadyAt(m, key.Type(), db.refs.Keys, a)
    && (a.id in db.store[key] ==>
          Covered(db.refs, Refs(db.store[key][a.id]))
          && WellTyped(m.Of(key.Type(), a.id).valueType, db.store[key][a.id]))
  }

  /** Replacing a value that printed by one that does not frees no reference. */
  lemma UnprintedPrevious(m: Meta, db: Db, key: MetaKey, a: Attribute)
    requires SetReady(m, db, key, a) && !Storable(a.value)
    ensures Subtracted(db.refs, multiset(Previous(db, key, a.id))) == db.refs
  {
    assert Previous(db, key, a.id) == [];
    SameMap(Subtracted(db.refs, multiset(Previous(db, key, a.id))), db.refs);
  }

  lemma StartStored(attrs: seq<Attribute>, refs: References, store: Store, key: MetaKey)
    returns (done: Attrs)
    requires key in store && store[key] == map[]
    ensures done == StoredUpTo(attrs, 0)
    ensures refs == Added(refs, AttrBag(done)) && store == store[key := done]
  {
    done := map[];
    assert StoredAttrs(attrs[..0]) == map[];
    EmptyAttrBag();
  }

  lemma Overwrite(s: Store, key: MetaKey, a: Attrs, b: Attrs)
    ensures s[key := a][key := b] == s[key := b]
  {
  }

  lemma AddedAgain(refs: References, b: multiset<Oid>, c: multiset<Oid>)
    ensures Added(Added(refs, b), c) == Added(refs, b + c)
  {
  }

  lemma NextStored(attrs: seq<Attribute>, i: nat, done: Attrs) returns (next: Attrs)
    requires Distinct(attrs) && i < |attrs| && done == StoredUpTo(attrs, i)
    ensures next == WithAttr(done, attrs[i]) && next == StoredAttrs(attrs[..i + 1])
    ensures AttrBag(next) == AttrBag(done) + multiset(Refs(attrs[i].value))
  {
    StoreStep(attrs, i);
    StoreStepBag(attrs, i);
    next := WithAttr(done, attrs[i]);
  }

  lemma AddedTwice(refs: References, b: multiset<Oid>, c: multiset<Oid>)
    requires NULL_OID !in refs
    ensures Added(Added(refs, b), c - multiset{NULL_OID}) == Added(refs, b + c)
  {
  }

  lemma SubtractedTwice(refs: References, b: multiset<Oid>, c: multiset<Oid>)
    requires NULL_OID !in refs
    ensures Subtracted(Subtracted(refs, b), c - multiset{NULL_OID}) == Subtracted(refs, b + c)
  {
  }

  ghost predicate KeyTypesLawful(m: Meta) {
    forall t, id :: IsKey(m, t, id) ==>
      m.Of(t, id).valueType.PlainT? && !m.Of(t, id).valueType.t.TextT?
  }

  lemma LawfulKeyTypes(m: Meta)
    requires Lawful(m)
    ensures KeyTypesLawful(m)
  {
    forall t, id | IsKey(m, t, id)
      ensures m.Of(t, id).valueType.PlainT? && !m.Of(t, id).valueType.t.TextT?
    {
      assert AttrLawful(m, t, id);
    }
  }

  lemma KeyPartCanon(md: AttrMeta, v: Value)
    requires md.valueType.PlainT? && WellTyped(md.valueType, v)
    ensures KeyPart(md, Canon(v)) == KeyPart(md, v)
  {
  }

  lemma KeyPartsStep(m: Meta, t: ObjectType, stored: Attrs, a: Attribute)
    requires KeyTypesLawful(m) && (m.Has(t, a.id) ==> WellTyped(m.Of(t, a.id).valueType, a.value))
    ensures KeyParts(m, t, WithAttr(stored, a)) ==
              if IsKey(m, t, a.id) then KeyParts(m, t, stored)[a.id := KeyPart(m.Of(t, a.id), a.value)]
              else KeyParts(m, t, stored)
  {
    if IsKey(m, t, a.id) {
      KeyPartCanon(m.Of(t, a.id), a.value);
      SameMap(KeyParts(m, t, WithAttr(stored, a)),
              KeyParts(m, t, stored)[a.id := KeyPart(m.Of(t, a.id), a.value)]);
    } else {
      SameMap(KeyParts(m, t, WithAttr(stored, a)), KeyParts(m, t, stored));
    }
  }

  /** An object's attribute holds no more references than its targets count. */
  lemma HeldCounted(m: Meta, db: Db, key: MetaKey, id: AttrId)
    requires Conserved(db) && Contained(m, db) && key in db.store && id in db.store[key]
    ensures Covered(db.refs, Refs(db.store[key][id]))
  {
    var a := db.store[key];
    AttrBagSplit(a, id);
    StoreBagSplit(db.store, key);
    assert BagOk(m, db.refs, key, a);
    forall o | o in Refs(a[id]) && o != NULL_OID
      ensures o in db.refs && db.refs[o] >= multiset(Refs(a[id]))[o]
    {
      assert o in ObjectBag(key, a);
      assert RefAt(m, db.refs, SwitchOfKey(m, key), o);
      assert db.refs[o] == StoreBag(db.store)[o];
    }
  }

  lemma CreateAssembles(db: Db, key: MetaKey, a: Attrs, indexed: bool, text: string, db': Db)
    requires db'.refs == Added(Added(WithEntry(db.refs, key), multiset(key.Members())), AttrBag(a))
    requires db'.store == db.store[key := map[]][key := a]
    requires db'.keys == if indexed then db.keys[key := text] else db.keys
    requires db'.related == db.related && db'.created == db.created + {key} && db'.interrupted == db.interrupted
    ensures db' == CreatedWith(db, key, a, indexed, text)
  {
    AddedAgain(WithEntry(db.refs, key), multiset(key.Members()), AttrBag(a));
    Overwrite(db.store, key, map[], a);
  }

  lemma InterruptAssembles(db: Db, key: MetaKey, a: Attrs, db': Db)
    requires db'.refs == Added(Added(WithEntry(db.refs, key), multiset(key.Members())), AttrBag(a))
    requires db'.store == db.store[key := map[]][key := a]
    requires db'.keys == db.keys && db'.related == db.related
    requires db'.created == db.created && db'.interrupted == db.interrupted + {key}
    ensures db' == Interrupted(db, key, a)
  {
    AddedAgain(WithEntry(db.refs, key), multiset(key.Members()), AttrBag(a));
    Overwrite(db.store, key, map[], a);
  }

  lemma MembersReady(m: Meta, refs: References, key: MetaKey, sw: Oid)
    requires MembersOk(m, refs, key, sw)
    ensures Counted(refs, key.Members())
  {
    if !key.OidKey? {
      assert key.Members() == [key.Members()[0], key.Members()[1]];
    }
  }

  lemma AttrsReady(m: Meta, refs: References, t: ObjectType, sw: Oid, attrs: seq<Attribute>)
    requires Accepted(m, refs, t, sw, attrs)
    ensures forall i: nat :: i < |attrs| ==> ReadyAt(m, t, refs.Keys, attrs[i])
  {
    forall i: nat | i < |attrs| ensures ReadyAt(m, t, refs.Keys, attrs[i]) {
      assert attrs[i] in attrs;
      forall o | o in Refs(attrs[i].value) ensures o == NULL_OID || o in refs {
        assert RefOk(m, refs, sw, o);
      }
    }
  }

  /** Validation of create is sufficient for its post step. */
  lemma CreateBecomesReady(m: Meta, db: Db, key: MetaKey, sw: Oid, attrs: seq<Attribute>)
    requires Creatable(m, db, key, sw, attrs)
    ensures CreateReady(m, db, key, sw, attrs)
  {
    CreateAccepts(m, db, key, sw, attrs);
    MembersReady(m, db.refs, key, sw);
    AttrsReady(m, db.refs, key.Type(), if key.Type() == SWITCH then NULL_OID else sw, attrs);
  }

  /** Validation of set is sufficient for its post step. */
  lemma SetBecomesReady(m: Meta, db: Db, key: MetaKey, a: Attribute)
    requires Settable(m, db, key, a)
    ensures SetReady(m, db, key, a)
  {
    SetAccepts(m, db, key, a);
    assert ObjectOk(m, key.Type(), db.store[key]);
    if a.id in db.store[key] {
      HeldCounted(m, db, key, a.id);
    }
    forall o | o in Refs(a.value) ensures o == NULL_OID || o in db.refs {
      assert RefAt(m, db.refs, SwitchOfKey(m, key), o);
    }
  }

  lemma SubtractedAgain(refs: References, b: multiset<Oid>, c: multiset<Oid>)
    ensures Subtracted(Subtracted(refs, b), c) == Subtracted(refs, b + c)
  {
  }

  lemma FirstBad(bad: set<Oid>, oid: Oid)
    requires oid in bad && forall o <- bad :: oid <= o
    ensures bad != {} && (set o: Oid | o in bad :: o as nat) != {}
    ensures Min(set o: Oid | o in bad :: o as nat) == oid
  {
    var nats := set o: Oid | o in bad :: o as nat;
    assert oid as nat in nats;
    assert IsMin(nats, Min(nats));
  }

  /** With the attributes outside `rest` dropped, the references of `id` can be dropped. */
  ghost predicate DropOk(m: Meta, refs: References, t: ObjectType, a: Attrs, rest: set<AttrId>, id: AttrId)
    requires id in a
  {
    && m.Has(t, id) && Supported(m.Of(t, id).valueType)
    && Covered(Subtracted(refs, AttrBag(a - rest)), Refs(a[id]))
    && AttrBag(a - (rest - {id})) == AttrBag(a - rest) + multiset(Refs(a[id]))
  }

  ghost predicate Releasable(m: Meta, refs: References, t: ObjectType, a: Attrs) {
    && NULL_OID !in refs
    && forall rest: set<AttrId>, id {:trigger DropOk(m, refs, t, a, rest, id)} ::
         id in rest && rest <= a.Keys ==> DropOk(m, refs, t, a, rest, id)
  }

  ghost predicate KeyReleasable(refs: References, key: MetaKey) {
    && NULL_OID !in refs
    && (if key.OidKey? then key.oid in refs && refs[key.oid] <= 0 else Covered(refs, key.Members()))
  }

  /** What the post step of remove trusts. */
  ghost predicate RemoveReady(m: Meta, db: Db, key: MetaKey) {
    && key in db.store && Releasable(m, db.refs, key.Type(), db.store[key])
    && KeyReleasable(Subtracted(db.refs, AttrBag(db.store[key])), key)
  }

  ghost predicate PartOk(m: Meta, db: Db, port: Oid, done: set<Oid>, oid: Oid) {
    && m.typeOf(oid) !in {PORT, SWITCH}
    && RemoveReady(m, Erased(db, PartKeys(m, port, done)), KeyOf(m, oid))
  }

  /** At every point of the cascade the next related object can be removed. */
  ghost predicate CascadeReady(m: Meta, db: Db, key: MetaKey) {
    key.OidKey? && key.objectType == PORT
    && (key.oid in db.related ==> PartsOk(m, db, key.oid, db.related[key.oid]))
  }

  ghost predicate PartsOk(m: Meta, db: Db, port: Oid, all: set<Oid>) {
    forall done: set<Oid>, oid {:trigger PartOk(m, db, port, done, oid)} ::
      done <= all && oid in all && oid !in done ==> PartOk(m, db, port, done, oid)
  }

  lemma DropNone(refs: References, a: Attrs)
    ensures refs == Subtracted(refs, AttrBag(a - a.Keys))
  {
    assert a - a.Keys == map[];
    EmptyAttrBag();
  }

  lemma NoneLeft(a: Attrs, rest: set<AttrId>)
    requires rest == {}
    ensures a - rest == a
  {
  }

  lemma ObjectReleasable(m: Meta, db: Db, key: MetaKey)
    requires Conserved(db) && Contained(m, db) && AttrsOk(m, db) && NULL_OID !in db.refs && key in db.store
    ensures Releasable(m, db.refs, key.Type(), db.store[key])
  {
    var a := db.store[key];
    assert ObjectOk(m, key.Type(), a);
    forall rest: set<AttrId>, id | id in rest && rest <= a.Keys
      ensures DropOk(m, db.refs, key.Type(), a, rest, id)
    {
      assert StoredOk(m, key.Type(), id, a[id]);
      DropBag(a, rest, id);
      DropCovered(m, db, key, rest, id);
    }
  }

  lemma DropBag(a: Attrs, rest: set<AttrId>, id: AttrId)
    requires id in rest && rest <= a.Keys
    ensures AttrBag(a - (rest - {id})) == AttrBag(a - rest) + multiset(Refs(a[id]))
  {
    var done := a - (rest - {id});
    AttrBagSplit(done, id);
    SameMap(done - {id}, a - rest);
  }

  lemma {:induction false} PartBag(a: Attrs, ids: set<AttrId>)
    ensures AttrBag(a - ids) <= AttrBag(a)
    decreases |ids|
  {
    if ids * a.Keys == {} {
      SameMap(a - ids, a);
    } else {
      var id :| id in ids * a.Keys;
      PartBag(a, ids - {id});
      AttrBagSplit(a - (ids - {id}), id);
      SameMap(a - (ids - {id}) - {id}, a - ids);
    }
  }

  lemma DropCovered(m: Meta, db: Db, key: MetaKey, rest: set<AttrId>, id: AttrId)
    requires Conserved(db) && Contained(m, db) && key in db.store
    requires id in rest && rest <= db.store[key].Keys
    ensures Covered(Subtracted(db.refs, AttrBag(db.store[key] - rest)), Refs(db.store[key][id]))
  {
    var a := db.store[key];
    DropBag(a, rest, id);
    PartBag(a, rest - {id});
    StoreBagSplit(db.store, key);
    AttrBagSplit(a, id);
    assert BagOk(m, db.refs, key, a);
    forall o | o in Refs(a[id]) && o != NULL_OID
      ensures o in db.refs && db.refs[o] - AttrBag(a - rest)[o] >= multiset(Refs(a[id]))[o]
    {
      assert o in ObjectBag(key, a);
      assert RefAt(m, db.refs, SwitchOfKey(m, key), o);
      assert db.refs[o] == StoreBag(db.store)[o];
      assert AttrBag(a - (rest - {id}))[o] <= AttrBag(a)[o];
    }
  }

  lemma KeyBecomesReleasable(m: Meta, db: Db, key: MetaKey)
    requires Conserved(db) && Contained(m, db) && NULL_OID !in db.refs && key in db.store
    requires key.OidKey? ==> key.oid in db.refs && db.refs[key.oid] == 0
    ensures KeyReleasable(Subtracted(db.refs, AttrBag(db.store[key])), key)
  {
    if !key.OidKey? {
      MembersCovered(m, db, key);
    }
  }

  lemma EraseAssembles(db: Db, key: MetaKey, db': Db)
    requires key in db.store
    requires var refs := Subtracted(db.refs, AttrBag(db.store[key]));
             db'.refs == if key.OidKey? then refs - {key.oid} else Subtracted(refs, multiset(key.Members()))
    requires db'.store == db.store - {key} && db'.created == db.created - {key}
    requires db'.interrupted == db.interrupted - {key}
    requires db'.keys == if key in db.keys then db.keys - {key} else db.keys
    requires db'.related == db.related
    ensures db' == Erased(db, {key})
  {
    EraseRefs(db, key);
    SameMap(db'.keys, db.keys - {key});
  }

  lemma EraseRefs(db: Db, key: MetaKey)
    requires key in db.store
    ensures var refs := Subtracted(db.refs, AttrBag(db.store[key]));
            Erased(db, {key}).refs ==
              if key.OidKey? then refs - {key.oid} else Subtracted(refs, multiset(key.Members()))
  {
    RestrictOne(db.store, key);
    if key.OidKey? {
      EraseOidRefs(db, key);
    } else {
      EraseEntryRefs(db, key);
    }
  }

  lemma EraseOidRefs(db: Db, key: MetaKey)
    requires key.OidKey? && key in db.store
    requires StoreBag(Restrict(db.store, {key})) == ObjectBag(key, db.store[key])
    ensures Erased(db, {key}).refs == Subtracted(db.refs, AttrBag(db.store[key])) - {key.oid}
  {
    assert OidsOf({key}) == {key.oid};
    assert ObjectBag(key, db.store[key]) == AttrBag(db.store[key]);
  }

  lemma EraseEntryRefs(db: Db, key: MetaKey)
    requires !key.OidKey? && key in db.store
    requires StoreBag(Restrict(db.store, {key})) == ObjectBag(key, db.store[key])
    ensures Erased(db, {key}).refs
         == Subtracted(Subtracted(db.refs, AttrBag(db.store[key])), multiset(key.Members()))
  {
    assert OidsOf({key}) == {};
    SubtractedSwap(db.refs, AttrBag(db.store[key]), multiset(key.Members()), OidsOf({key}));
  }

  lemma SubtractedSwap(refs: References, b: multiset<Oid>, c: multiset<Oid>, none: set<Oid>)
    requires none == {}
    ensures Subtracted(refs, c + b) - none == Subtracted(Subtracted(refs, b), c)
  {
    SameMap(Subtracted(refs, c + b) - none, Subtracted(Subtracted(refs, b), c));
  }

  lemma MembersCovered(m: Meta, db: Db, key: MetaKey)
    requires Conserved(db) && Contained(m, db) && key in db.store
    ensures Covered(Subtracted(db.refs, AttrBag(db.store[key])), key.Members())
  {
    StoreBagSplit(db.store, key);
    assert BagOk(m, db.refs, key, db.store[key]);
    forall o | o in key.Members() && o != NULL_OID
      ensures o in db.refs && db.refs[o] - AttrBag(db.store[key])[o] >= multiset(key.Members())[o]
    {
      assert o in ObjectBag(key, db.store[key]);
      assert RefAt(m, db.refs, SwitchOfKey(m, key), o);
      assert db.refs[o] == StoreBag(db.store)[o];
    }
  }

  // --------------------------------------------- the related objects, one by one

  function PartKeys(m: Meta, port: Oid, done: set<Oid>): set<MetaKey> {
    {OidKey(PORT, port)} + (set o | o in done :: KeyOf(m, o))
  }

  lemma PartStart(m: Meta, db: Db, port: Oid)
    requires port in db.related
    ensures PartKeys(m, port, {}) == {OidKey(PORT, port)}
  {
  }

  lemma PartEnd(m: Meta, db: Db, port: Oid)
    requires port in db.related
    ensures AfterRemove(m, db, OidKey(PORT, port))
         == Erased(db, PartKeys(m, port, db.related[port])).(related := db.related[port := {}])
  {
    assert PartKeys(m, port, db.related[port]) == {OidKey(PORT, port)} + RelatedKeys(m, db, port);
  }

  lemma EntryReady(m: Meta, db: Db, key: MetaKey)
    requires Inv(m, db) && Erasable(db, {key})
    ensures RemoveReady(m, db, key)
  {
    assert key in {key};
    ObjectReleasable(m, db, key);
    KeyBecomesReleasable(m, db, key);
  }

  lemma PartErasable(m: Meta, db: Db, port: Oid, done: set<Oid>)
    requires Inv(m, db) && PortAccepted(m, db, port) && done <= db.related[port]
    ensures Erasable(db, PartKeys(m, port, done))
  {
    RemoveErasable(m, db, OidKey(PORT, port));
    assert PartKeys(m, port, done) <= {OidKey(PORT, port)} + RelatedKeys(m, db, port);
  }

  /** While the cascade runs, a related object still to go is there and unreferenced. */
  lemma PartStands(m: Meta, db: Db, port: Oid, done: set<Oid>, oid: Oid)
    requires DomainAgrees(m, db) && Conserved(db) && port in db.related && m.typeOf(port) == PORT
    requires oid != port && oid !in done && RelatedOk(m, db.refs, db.store, oid)
    ensures Erasable(Erased(db, PartKeys(m, port, done)), {KeyOf(m, oid)})
  {
    var ks := PartKeys(m, port, done);
    StoreBagErase(db.store, ks);
    assert oid !in OidsOf(ks);
    assert KeyOf(m, oid) !in ks;
    assert db.refs[oid] == StoreBag(db.store)[oid];
  }

  lemma PartBecomesOk(m: Meta, db: Db, port: Oid, done: set<Oid>, oid: Oid)
    requires Inv(m, db) && PortAccepted(m, db, port)
    requires done <= db.related[port] && oid in db.related[port] && oid !in done
    ensures PartOk(m, db, port, done, oid)
  {
    GroupDefault(m, db, port, oid);
    RelatedTypes(m, db.related, port, oid);
    PartErasable(m, db, port, done);
    ErasePreserves(m, db, PartKeys(m, port, done));
    PartStands(m, db, port, done, oid);
    EntryReady(m, Erased(db, PartKeys(m, port, done)), KeyOf(m, oid));
  }

  lemma RelatedTypes(m: Meta, related: map<Oid, set<Oid>>, port: Oid, oid: Oid)
    requires RelatedSane(m, related) && port in related && oid in related[port]
    ensures oid != NULL_OID && m.typeOf(oid) !in {NULL_TYPE, PORT, SWITCH}
  {
  }

  /** Validation of remove is sufficient for its post step, through the whole cascade. */
  lemma RemoveBecomesReady(m: Meta, db: Db, key: MetaKey)
    requires Inv(m, db) && RemoveStatus(m, db, key) == Success && !ResetsDb(db, key)
    ensures key.Type() != SWITCH ==> RemoveReady(m, db, key)
    ensures key.Type() == PORT && key.OidKey? ==> CascadeReady(m, db, key)
  {
    RemoveErasable(m, db, key);
    EntryReady(m, db, key);
    if key.OidKey? && key.objectType == PORT && key.oid in db.related {
      forall done: set<Oid>, oid |
        done <= db.related[key.oid] && oid in db.related[key.oid] && oid !in done
        ensures PartOk(m, db, key.oid, done, oid)
      {
        PartBecomesOk(m, db, key.oid, done, oid);
      }
    }
  }

  lemma PartStep(m: Meta, db: Db, port: Oid, done: set<Oid>, oid: Oid)
    requires m.typeOf(oid) !in {PORT, SWITCH} && oid !in done
    ensures AfterRemove(m, Erased(db, PartKeys(m, port, done)), KeyOf(m, oid))
         == Erased(db, PartKeys(m, port, done + {oid}))
  {
    EraseTwice(db, PartKeys(m, port, done), {KeyOf(m, oid)});
    assert PartKeys(m, port, done + {oid}) == PartKeys(m, port, done) + {KeyOf(m, oid)};
  }

  // ------------------------------------------------------------ snoops and gets

  lemma SnoopSettles(m: Meta, db: Db, oid: Oid, o: Oid)
    requires o == oid || AfterSnoop(m, db, o) == db
    ensures AfterSnoop(m, AfterSnoop(m, db, oid), o) == AfterSnoop(m, db, oid)
  {
  }

  lemma SnoopsOne(m: Meta, db: Db, oid: Oid)
    ensures AfterSnoops(m, db, [oid]) == AfterSnoop(m, db, oid)
  {
    assert AfterSnoops(m, AfterSnoop(m, db, oid), [oid][1..]) == AfterSnoop(m, db, oid);
  }

  lemma {:induction false} SnoopsAppend(m: Meta, db: Db, a: seq<Oid>, b: seq<Oid>)
    ensures AfterSnoops(m, db, a + b) == AfterSnoops(m, AfterSnoops(m, db, a), b)
    decreases |a|
  {
    if a == [] {
      assert a + b == b;
    } else {
      assert (a + b)[1..] == a[1..] + b;
      SnoopsAppend(m, AfterSnoop(m, db, a[0]), a[1..], b);
    }
  }

  /** Every result is of a known attribute whose type get handles. */
  ghost predicate Answered(m: Meta, t: ObjectType, results: seq<Attribute>) {
    forall i: nat :: i < |results| ==>
      m.Has(t, results[i].id) && GetHandled(m.Of(t, results[i].id).valueType)
  }

  lemma {:induction false} QueryAnswered(m: Meta, t: ObjectType, query: seq<Attribute>, results: seq<Attribute>)
    requires Typed(m, t, query) && SameIds(query, results) && GetAttrsStatus(m, t, query) == Success
    ensures Answered(m, t, results)
  {
    if query != [] {
      assert query[0] in query;
      QueryAnswered(m, t, query[1..], results[1..]);
      forall i: nat | i < |results|
        ensures m.Has(t, results[i].id) && GetHandled(m.Of(t, results[i].id).valueType)
      {
        if i > 0 {
          assert results[i] == results[1..][i - 1];
        }
      }
    }
  }

  function OidSet(list: seq<Oid>): set<Oid> { set o | o in list }

  lemma RelatedStep(results: seq<Attribute>, i: nat)
    requires i < |results|
    ensures RelatedOids(results[..i + 1]) == RelatedOids(results[..i]) +
              if IsPortRelated(PORT, results[i].id) then OidSet(DataRefs(results[i].value.data)) else {}
  {
    assert results[..i + 1] == results[..i] + [results[i]];
    var a, b := RelatedOids(results[..i + 1]), RelatedOids(results[..i]);
    forall o | o in a && o !in b
      ensures IsPortRelated(PORT, results[i].id) && o in DataRefs(results[i].value.data)
    {
      var r :| r in results[..i + 1] && IsPortRelated(PORT, r.id) && o in DataRefs(r.value.data);
      assert r == results[i] || r in results[..i];
    }
    assert results[i] in results[..i + 1];
  }

  lemma WithRelatedTwice(related: map<Oid, set<Oid>>, port: Oid, a: set<Oid>, b: set<Oid>)
    ensures WithRelated(WithRelated(related, port, a), port, b) == WithRelated(related, port, a + b)
  {
    var one := WithRelated(related, port, a);
    if a == {} {
      assert a + b == b;
    } else if b == {} {
      assert a + b == a;
    } else {
      var base := if port in related then related[port] else {};
      assert base + a + b == base + (a + b);
      SameMap(WithRelated(one, port, b), WithRelated(related, port, a + b));
    }
  }

  // ------------------------------------------------------------------- flushes

  lemma EraseNone(db: Db)
    ensures Erased(db, {}) == db
  {
    assert Restrict(db.store, {}) == map[];
    EmptyStoreBag();
    assert OidsOf({}) == {} && KeySet([]) == {};
    SameMap(Erased(db, {}).refs, db.refs);
  }

  function KeySet(ks: seq<MetaKey>): set<MetaKey> { set k | k in ks }

  lemma EntriesTyped(m: Meta, db: Db)
    requires Lawful(m) && MandatoryKept(m, db)
    ensures forall k <- db.store :: k.FdbKey? ==> FDB_TYPE in db.store[k]
  {
    assert IsUnconditional(m, FDB_ENTRY, FDB_TYPE);
    forall k | k in db.store && k.FdbKey? ensures FDB_TYPE in db.store[k] {
      assert HasMandatory(m, k.Type(), db.store[k]);
    }
  }

  /** With the first `i` keys gone, the next one can go. */
  ghost predicate FlushOk(m: Meta, db: Db, ks: seq<MetaKey>, i: nat)
    requires i < |ks|
  {
    && ks[i].FdbKey?
    && RemoveReady(m, Erased(db, KeySet(ks[..i])), ks[i])
    && Erased(Erased(db, KeySet(ks[..i])), {ks[i]}) == Erased(db, KeySet(ks[..i + 1]))
  }

  predicate NoRepeats(ks: seq<MetaKey>) { forall p, q :: 0 <= p < q < |ks| ==> ks[p] != ks[q] }

  lemma ExtendKeys(ks: seq<MetaKey>, k: MetaKey)
    requires NoRepeats(ks) && k !in KeySet(ks)
    ensures NoRepeats(ks + [k]) && KeySet(ks + [k]) == KeySet(ks) + {k}
  {
  }

  lemma CollectStep(store: Store, bvId: Oid, attrs: seq<Attribute>, rest: set<MetaKey>, k: MetaKey)
    requires k in rest && rest <= store.Keys
    ensures Flushable(store, bvId, attrs) - (rest - {k})
         == (Flushable(store, bvId, attrs) - rest) + if FlushMatches(store, bvId, attrs, k) then {k} else {}
  {
  }

  /** The first `i` keys are gone. */
  ghost function FlushedUpTo(db: Db, ks: seq<MetaKey>, i: nat): Db
    requires i <= |ks|
  {
    Erased(db, KeySet(ks[..i]))
  }

  lemma FlushStarts(db: Db, ks: seq<MetaKey>)
    ensures FlushedUpTo(db, ks, 0) == db
  {
    assert KeySet(ks[..0]) == {};
    EraseNone(db);
  }

  lemma FlushEnds(db: Db, ks: seq<MetaKey>)
    ensures FlushedUpTo(db, ks, |ks|) == Erased(db, KeySet(ks))
  {
    assert ks[..|ks|] == ks;
  }

  ghost predicate FlushesOk(m: Meta, db: Db, ks: seq<MetaKey>) {
    forall i: nat {:trigger FlushOk(m, db, ks, i)} :: i < |ks| ==> FlushOk(m, db, ks, i)
  }

  lemma FlushesReady(m: Meta, db: Db, bvId: Oid, attrs: seq<Attribute>, ks: seq<MetaKey>)
    requires Inv(m, db) && KeySet(ks) == Flushable(db.store, bvId, attrs)
    requires NoRepeats(ks)
    ensures FlushesOk(m, db, ks)
  {
    forall i: nat | i < |ks| ensures FlushOk(m, db, ks, i) {
      FlushedKeys(db.store, bvId, attrs, ks, i);
      FlushOneReady(m, db, KeySet(ks[..i]), ks[i]);
      EraseTwice(db, KeySet(ks[..i]), {ks[i]});
    }
  }

  lemma FlushedKeys(store: Store, bvId: Oid, attrs: seq<Attribute>, ks: seq<MetaKey>, i: nat)
    requires KeySet(ks) == Flushable(store, bvId, attrs) && i < |ks|
    requires NoRepeats(ks)
    ensures ks[i] !in KeySet(ks[..i]) && KeySet(ks[..i + 1]) == KeySet(ks[..i]) + {ks[i]}
    ensures forall k <- KeySet(ks[..i + 1]) :: k in store && k.FdbKey?
  {
    assert ks[..i + 1] == ks[..i] + [ks[i]];
    forall k | k in KeySet(ks[..i + 1]) ensures k in store && k.FdbKey? {
      assert k in KeySet(ks);
      assert k in Flushable(store, bvId, attrs);
    }
  }

  lemma FlushOneReady(m: Meta, db: Db, done: set<MetaKey>, key: MetaKey)
    requires Inv(m, db) && key !in done && key in db.store && key.FdbKey?
    requires forall k <- done :: k in db.store && k.FdbKey?
    ensures RemoveReady(m, Erased(db, done), key)
  {
    assert Erasable(db, done);
    ErasePreserves(m, db, done);
    assert Erasable(Erased(db, done), {key});
    EntryReady(m, Erased(db, done), key);
  }
}
