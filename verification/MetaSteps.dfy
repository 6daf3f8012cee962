/** Every step of the metadata database keeps the invariant. */
module MetaSteps {
  import opened Sai
  import opened Stored
  import opened MetaState
  import opened RefBags
  import opened MetaInvariant

  /** The vendor's side of a successful create: a fresh oid of the requested type on the
      requested switch. */
  ghost predicate VendorCreated(m: Meta, db: Db, key: MetaKey, sw: Oid) {
    key.OidKey? ==>
      && key.oid != NULL_OID && m.typeOf(key.oid) == key.objectType
      && key.oid !in db.refs && key !in db.store
      && (key.objectType != SWITCH ==> m.switchOf(key.oid) == sw)
  }

  /** The other objects stay contained when no counted oid disappears. */
  lemma MoreRefs(m: Meta, db: Db, refs: References)
    requires Contained(m, db) && db.refs.Keys <= refs.Keys
    ensures forall k <- db.store :: BagOk(m, refs, k, db.store[k])
  {
    forall k | k in db.store ensures BagOk(m, refs, k, db.store[k]) {
      forall o | o in ObjectBag(k, db.store[k]) ensures RefAt(m, refs, SwitchOfKey(m, k), o) {
        assert RefAt(m, db.refs, SwitchOfKey(m, k), o);
      }
    }
  }

  // ----------------------------------------------------------------- create

  ghost predicate Creatable(m: Meta, db: Db, key: MetaKey, sw: Oid, attrs: seq<Attribute>) {
    && Lawful(m) && Inv(m, db) && Typed(m, key.Type(), attrs)
    && key.Type() != NULL_TYPE && (key.OidKey? ==> !IsEntryType(key.objectType))
    && (!key.OidKey? ==> sw == key.switchId)
    && CreateStatus(m, db, key, sw, attrs) == Success
    && VendorCreated(m, db, key, sw)
  }

  lemma CreateAccepts(m: Meta, db: Db, key: MetaKey, sw: Oid, attrs: seq<Attribute>)
    requires Creatable(m, db, key, sw, attrs)
    ensures key !in db.store
    ensures Accepted(m, db.refs, key.Type(), if key.Type() == SWITCH then NULL_OID else sw, attrs)
    ensures MembersOk(m, db.refs, key, sw)
  {
    AttrsStatusAccepts(m, db.refs, key.Type(), if key.Type() == SWITCH then NULL_OID else sw, attrs);
  }

  lemma AcceptedRef(m: Meta, refs: References, t: ObjectType, sw: Oid, attrs: seq<Attribute>, o: Oid)
    requires Accepted(m, refs, t, sw, attrs) && o in AttrBag(StoredAttrs(attrs))
    ensures RefOk(m, refs, sw, o)
  {
    InAttrBag(StoredAttrs(attrs), o);
    var id :| id in StoredAttrs(attrs) && o in Refs(StoredAttrs(attrs)[id]);
    StoredIds(attrs);
    var i: nat :| i < |attrs| && attrs[i].id == id;
    StoredAt(attrs, i);
    CanonRefs(attrs[i].value);
    assert attrs[i] in attrs;
  }

  lemma AcceptedMember(m: Meta, refs: References, key: MetaKey, o: Oid)
    requires Lawful(m) && !key.OidKey? && MembersOk(m, refs, key, key.switchId) && o in key.Members()
    ensures RefAt(m, refs, key.switchId, o)
  {
    assert key.Members() == [key.Members()[0], key.Members()[1]];
  }

  /** A created object holds counted oids of its own switch only. */
  lemma CreatedBag(m: Meta, db: Db, key: MetaKey, sw: Oid, attrs: seq<Attribute>, o: Oid)
    requires Creatable(m, db, key, sw, attrs)
    requires o in ObjectBag(key, StoredAttrs(attrs))
    ensures RefAt(m, db.refs, SwitchOfKey(m, key), o)
  {
    CreateAccepts(m, db, key, sw, attrs);
    if o in key.Members() {
      AcceptedMember(m, db.refs, key, o);
    } else {
      AcceptedRef(m, db.refs, key.Type(), if key.Type() == SWITCH then NULL_OID else sw, attrs, o);
    }
  }

  /** What the post step of create needs to know of the new key. */
  ghost predicate NewKey(m: Meta, db: Db, key: MetaKey) {
    key !in db.store
    && (key.OidKey? ==> key.oid != NULL_OID && key.oid !in db.refs && m.typeOf(key.oid) == key.objectType)
  }

  lemma CreateDomain(m: Meta, db: Db, key: MetaKey, attrs: seq<Attribute>, garbage: bool)
    requires DomainAgrees(m, db) && NewKey(m, db, key)
    ensures DomainAgrees(m, AfterCreate(m, db, key, attrs, garbage))
  {
    var db' := AfterCreate(m, db, key, attrs, garbage);
    assert db'.refs.Keys == WithEntry(db.refs, key).Keys;
  }

  /** Create raises each count by exactly the occurrences the new object brings. */
  lemma CreateConserves(m: Meta, db: Db, key: MetaKey, attrs: seq<Attribute>, garbage: bool)
    requires Conserved(db) && Contained(m, db) && NewKey(m, db, key)
    ensures Conserved(AfterCreate(m, db, key, attrs, garbage))
  {
    var db' := AfterCreate(m, db, key, attrs, garbage);
    var bag := ObjectBag(key, StoredAttrs(attrs));
    CreateBag(db, key, StoredAttrs(attrs));
    forall o | o in db'.refs ensures db'.refs[o] == StoreBag(db'.store)[o] {
      CreateCount(m, db, key, o);
      assert db'.refs[o] == WithEntry(db.refs, key)[o] + bag[o];
    }
  }

  lemma CreateCount(m: Meta, db: Db, key: MetaKey, o: Oid)
    requires Conserved(db) && Contained(m, db) && NewKey(m, db, key) && o in WithEntry(db.refs, key)
    ensures WithEntry(db.refs, key)[o] == StoreBag(db.store)[o]
  {
    if o !in db.refs {
      UncountedUnused(m, db, o);
    }
  }

  lemma CreateBag(db: Db, key: MetaKey, a: Attrs)
    requires key !in db.store
    ensures StoreBag(db.store[key := a]) == ObjectBag(key, a) + StoreBag(db.store)
  {
    StoreBagUpdate(db.store, key, a);
    SameMap(db.store - {key}, db.store);
  }

  lemma CreateContained(m: Meta, db: Db, key: MetaKey, attrs: seq<Attribute>, garbage: bool)
    requires Contained(m, db) && BagOk(m, db.refs, key, StoredAttrs(attrs))
    ensures Contained(m, AfterCreate(m, db, key, attrs, garbage))
  {
    var db' := AfterCreate(m, db, key, attrs, garbage);
    assert BagOk(m, db'.refs, key, StoredAttrs(attrs)) by {
      forall o | o in ObjectBag(key, StoredAttrs(attrs))
        ensures RefAt(m, db'.refs, SwitchOfKey(m, key), o)
      {
        assert RefAt(m, db.refs, SwitchOfKey(m, key), o);
      }
    }
    MoreRefs(m, db, db'.refs);
  }

  lemma UniqueExtend(keys: map<MetaKey, string>, key: MetaKey, text: string)
    requires KeysUnique(keys) && key !in keys
    requires text == "" || text !in keys.Values
    ensures KeysUnique(keys[key := text])
  {
    forall j | j in keys ensures keys[j] in keys.Values {}
  }

  lemma NoKeysNoText(m: Meta, t: ObjectType, attrs: seq<Attribute>)
    requires !HasKeys(m, t, attrs)
    ensures KeyText(m, t, StoredAttrs(attrs)) == ""
  {
    StoredIds(attrs);
    assert KeyParts(m, t, StoredAttrs(attrs)) == map[];
  }

  lemma CreateKeys(m: Meta, db: Db, key: MetaKey, attrs: seq<Attribute>, garbage: bool)
    requires KeysAgree(m, db) && key !in db.store && key !in db.interrupted
    requires HasKeys(m, key.Type(), attrs) ==>
               KeyText(m, key.Type(), StoredAttrs(attrs)) !in db.keys.Values
    ensures KeysAgree(m, AfterCreate(m, db, key, attrs, garbage))
  {
    if !HasKeys(m, key.Type(), attrs) {
      NoKeysNoText(m, key.Type(), attrs);
    }
    CreateIndex(m, db, key, StoredAttrs(attrs), HasKeys(m, key.Type(), attrs) || garbage,
                KeyText(m, key.Type(), StoredAttrs(attrs)));
  }

  lemma CreateIndex(m: Meta, db: Db, key: MetaKey, a: Attrs, indexed: bool, text: string)
    requires KeysAgree(m, db) && key !in db.store && key !in db.interrupted
    requires text == KeyText(m, key.Type(), a)
    requires text == "" || (indexed && text !in db.keys.Values)
    ensures KeysAgree(m, CreatedWith(db, key, a, indexed, text))
  {
    var db' := CreatedWith(db, key, a, indexed, text);
    UniqueExtend(db.keys, key, text);
    forall k | k in db'.store && k !in db'.interrupted ensures KeyAgrees(m, db'.keys, k, db'.store[k]) {
      if k != key {
        assert KeyAgrees(m, db.keys, k, db.store[k]);
      }
    }
  }

  /** What the validation of create establishes about the object to be made. */
  ghost predicate Sound(m: Meta, db: Db, key: MetaKey, attrs: seq<Attribute>) {
    var a := StoredAttrs(attrs);
    && BagOk(m, db.refs, key, a) && ObjectOk(m, key.Type(), a) && HasMandatory(m, key.Type(), a)
    && (HasKeys(m, key.Type(), attrs) ==> KeyText(m, key.Type(), a) !in db.keys.Values)
  }

  lemma AcceptedObject(m: Meta, refs: References, t: ObjectType, sw: Oid, attrs: seq<Attribute>)
    requires Accepted(m, refs, t, sw, attrs)
    ensures ObjectOk(m, t, StoredAttrs(attrs))
  {
    StoredIds(attrs);
    forall id | id in StoredAttrs(attrs) ensures StoredOk(m, t, id, StoredAttrs(attrs)[id]) {
      var i: nat :| i < |attrs| && attrs[i].id == id;
      StoredAt(attrs, i);
      assert StoredOk(m, t, id, attrs[i].value);
      CanonTyped(m.Of(t, id).valueType, attrs[i].value);
    }
  }

  lemma MandatoryPassed(m: Meta, db: Db, key: MetaKey, sw: Oid, attrs: seq<Attribute>)
    requires Lawful(m) && Typed(m, key.Type(), attrs)
    requires CreateStatus(m, db, key, sw, attrs) == Success
    ensures HasMandatory(m, key.Type(), StoredAttrs(attrs))
  {
    StoredIds(attrs);
    forall id | IsUnconditional(m, key.Type(), id) ensures id in StoredAttrs(attrs) {
      MandatoryChecked(m, db, key, sw, attrs, id);
    }
  }

  lemma MandatoryChecked(m: Meta, db: Db, key: MetaKey, sw: Oid, attrs: seq<Attribute>, id: AttrId)
    requires Lawful(m) && Typed(m, key.Type(), attrs) && IsUnconditional(m, key.Type(), id)
    requires CreateStatus(m, db, key, sw, attrs) == Success
    ensures id in IdSet(attrs)
  {
    assert AttrLawful(m, key.Type(), id);
    assert MandatoryOk(m, db.store, key.Type(), attrs, id);
  }

  lemma CreatedBagOk(m: Meta, db: Db, key: MetaKey, sw: Oid, attrs: seq<Attribute>)
    requires Creatable(m, db, key, sw, attrs)
    ensures BagOk(m, db.refs, key, StoredAttrs(attrs))
  {
    forall o | o in ObjectBag(key, StoredAttrs(attrs))
      ensures RefAt(m, db.refs, SwitchOfKey(m, key), o)
    {
      CreatedBag(m, db, key, sw, attrs, o);
    }
  }

  /** Validation is sufficient: it establishes everything the post step relies on. */
  lemma CreateValidates(m: Meta, db: Db, key: MetaKey, sw: Oid, attrs: seq<Attribute>)
    requires Creatable(m, db, key, sw, attrs)
    ensures NewKey(m, db, key) && Sound(m, db, key, attrs)
  {
    CreatedBagOk(m, db, key, sw, attrs);
    CreateAccepts(m, db, key, sw, attrs);
    AcceptedObject(m, db.refs, key.Type(), if key.Type() == SWITCH then NULL_OID else sw, attrs);
    MandatoryPassed(m, db, key, sw, attrs);
    CreateFreshText(m, db, key, sw, attrs);
  }

  lemma CreateFreshText(m: Meta, db: Db, key: MetaKey, sw: Oid, attrs: seq<Attribute>)
    requires Typed(m, key.Type(), attrs) && CreateStatus(m, db, key, sw, attrs) == Success
    ensures HasKeys(m, key.Type(), attrs) ==>
              KeyText(m, key.Type(), StoredAttrs(attrs)) !in db.keys.Values
  {
  }

  lemma CreateObjects(m: Meta, db: Db, key: MetaKey, attrs: seq<Attribute>, garbage: bool)
    requires AttrsOk(m, db) && MandatoryKept(m, db) && key !in db.store
    requires ObjectOk(m, key.Type(), StoredAttrs(attrs)) && HasMandatory(m, key.Type(), StoredAttrs(attrs))
    ensures AttrsOk(m, AfterCreate(m, db, key, attrs, garbage))
    ensures MandatoryKept(m, AfterCreate(m, db, key, attrs, garbage))
  {
  }

  lemma CreateKeepsInv(m: Meta, db: Db, key: MetaKey, attrs: seq<Attribute>, garbage: bool)
    requires Inv(m, db) && NewKey(m, db, key) && Sound(m, db, key, attrs)
    ensures Inv(m, AfterCreate(m, db, key, attrs, garbage))
  {
    CreateDomain(m, db, key, attrs, garbage);
    CreateConserves(m, db, key, attrs, garbage);
    CreateContained(m, db, key, attrs, garbage);
    CreateKeys(m, db, key, attrs, garbage);
    CreateObjects(m, db, key, attrs, garbage);
    assert AfterCreate(m, db, key, attrs, garbage).related == db.related;
  }

  lemma CreatePreserves(m: Meta, db: Db, key: MetaKey, sw: Oid, attrs: seq<Attribute>, garbage: bool)
    requires Creatable(m, db, key, sw, attrs)
    ensures Inv(m, AfterCreate(m, db, key, attrs, garbage))
  {
    CreateValidates(m, db, key, sw, attrs);
    CreateKeepsInv(m, db, key, attrs, garbage);
  }

  // ---------------------------------------------------- an interrupted create

  /** Domain, counts and containment depend on counts and store alone. */
  lemma SameCounts(m: Meta, db: Db, db': Db)
    requires db'.refs == db.refs && db'.store == db.store
    requires DomainAgrees(m, db) && Conserved(db) && Contained(m, db)
    ensures DomainAgrees(m, db') && Conserved(db') && Contained(m, db')
  {
  }

  lemma AcceptedPrefix(m: Meta, refs: References, t: ObjectType, sw: Oid, attrs: seq<Attribute>, n: nat)
    requires Accepted(m, refs, t, sw, attrs) && n <= |attrs|
    ensures Accepted(m, refs, t, sw, attrs[..n])
  {
    forall a | a in attrs[..n] ensures a in attrs {}
  }

  lemma InterruptedBagOk(m: Meta, db: Db, key: MetaKey, sw: Oid, attrs: seq<Attribute>, n: nat)
    requires Creatable(m, db, key, sw, attrs) && n <= |attrs|
    ensures BagOk(m, db.refs, key, StoredUpTo(attrs, n))
    ensures ObjectOk(m, key.Type(), StoredUpTo(attrs, n))
  {
    CreateAccepts(m, db, key, sw, attrs);
    var at := if key.Type() == SWITCH then NULL_OID else sw;
    AcceptedPrefix(m, db.refs, key.Type(), at, attrs, n);
    AcceptedObject(m, db.refs, key.Type(), at, attrs[..n]);
    forall o | o in ObjectBag(key, StoredUpTo(attrs, n))
      ensures RefAt(m, db.refs, SwitchOfKey(m, key), o)
    {
      if o in key.Members() {
        AcceptedMember(m, db.refs, key, o);
      } else {
        AcceptedRef(m, db.refs, key.Type(), at, attrs[..n], o);
      }
    }
  }

  lemma InterruptCounts(m: Meta, db: Db, key: MetaKey, attrs: seq<Attribute>, n: nat)
    requires DomainAgrees(m, db) && Conserved(db) && Contained(m, db) && NewKey(m, db, key)
    requires n <= |attrs| && BagOk(m, db.refs, key, StoredUpTo(attrs, n))
    ensures var db' := Interrupted(db, key, StoredUpTo(attrs, n));
            DomainAgrees(m, db') && Conserved(db') && Contained(m, db')
  {
    CreateDomain(m, db, key, attrs[..n], false);
    CreateConserves(m, db, key, attrs[..n], false);
    CreateContained(m, db, key, attrs[..n], false);
    SameCounts(m, AfterCreate(m, db, key, attrs[..n], false), Interrupted(db, key, StoredUpTo(attrs, n)));
  }

  lemma InterruptRest(m: Meta, db: Db, key: MetaKey, a: Attrs)
    requires AttrsOk(m, db) && KeysAgree(m, db) && MandatoryKept(m, db)
    requires key !in db.store && !key.FdbKey? && ObjectOk(m, key.Type(), a)
    ensures var db' := Interrupted(db, key, a);
            AttrsOk(m, db') && KeysAgree(m, db') && MandatoryKept(m, db')
  {
    var db' := Interrupted(db, key, a);
    forall k | k in db'.store && k !in db'.interrupted ensures KeyAgrees(m, db'.keys, k, db'.store[k]) {
      assert KeyAgrees(m, db.keys, k, db.store[k]);
    }
    forall k | k in db'.created ensures HasMandatory(m, k.Type(), db'.store[k]) {
      assert HasMandatory(m, k.Type(), db.store[k]);
    }
  }

  /** An exception in the attribute loop of create leaves counts exact and contained, so
      the invariant, which claims nothing of the key text of the object left behind. */
  lemma InterruptPreserves(m: Meta, db: Db, key: MetaKey, sw: Oid, attrs: seq<Attribute>, n: nat)
    requires Creatable(m, db, key, sw, attrs) && n <= |attrs| && !key.FdbKey?
    ensures Inv(m, Interrupted(db, key, StoredUpTo(attrs, n)))
  {
    CreateAccepts(m, db, key, sw, attrs);
    InterruptedBagOk(m, db, key, sw, attrs, n);
    InterruptKeepsInv(m, db, key, attrs, n);
  }

  lemma InterruptKeepsInv(m: Meta, db: Db, key: MetaKey, attrs: seq<Attribute>, n: nat)
    requires Inv(m, db) && NewKey(m, db, key) && n <= |attrs| && !key.FdbKey?
    requires BagOk(m, db.refs, key, StoredUpTo(attrs, n))
    requires ObjectOk(m, key.Type(), StoredUpTo(attrs, n))
    ensures Inv(m, Interrupted(db, key, StoredUpTo(attrs, n)))
  {
    InterruptCounts(m, db, key, attrs, n);
    InterruptRest(m, db, key, StoredUpTo(attrs, n));
    assert Interrupted(db, key, StoredUpTo(attrs, n)).related == db.related;
  }

  /** The value an fdb attribute may have once accepted prints. */
  lemma FdbValuePrints(m: Meta, refs: References, id: AttrId, sw: Oid, v: Value, creating: bool)
    requires Lawful(m) && m.Has(FDB_ENTRY, id) && WellTyped(m.Of(FDB_ENTRY, id).valueType, v)
    requires ValueStatus(m, refs, FDB_ENTRY, m.Of(FDB_ENTRY, id), sw, v, creating) == Success
    ensures Storable(v)
  {
  }

  lemma FdbCreatePrints(m: Meta, db: Db, key: MetaKey, attrs: seq<Attribute>)
    requires Lawful(m) && key.FdbKey? && Typed(m, FDB_ENTRY, attrs)
    requires CreateStatus(m, db, key, key.switchId, attrs) == Success
    ensures AllStorable(attrs)
  {
    AttrsAccepted(m, db.refs, FDB_ENTRY, key.switchId, attrs, 0);
    forall i: nat | i < |attrs| ensures Storable(attrs[i].value) {
      assert attrs[i] in attrs && AttrCreateStatus(m, db.refs, FDB_ENTRY, key.switchId, attrs, i) == Success;
      FdbValuePrints(m, db.refs, attrs[i].id, key.switchId, attrs[i].value, true);
    }
  }

  // -------------------------------------------------------------------- set

  ghost predicate Settable(m: Meta, db: Db, key: MetaKey, a: Attribute) {
    && Lawful(m) && Inv(m, db) && Typed(m, key.Type(), [a])
    && SetStatus(m, db.refs, db.store, key, a) == Success
  }

  lemma FdbSetPrints(m: Meta, db: Db, key: MetaKey, a: Attribute)
    requires Lawful(m) && key.FdbKey? && Typed(m, FDB_ENTRY, [a])
    requires SetStatus(m, db.refs, db.store, key, a) == Success
    ensures Storable(a.value)
  {
    assert a in [a];
    FdbValuePrints(m, db.refs, a.id, key.switchId, a.value, false);
  }

  lemma SetAccepts(m: Meta, db: Db, key: MetaKey, a: Attribute)
    requires Lawful(m) && Typed(m, key.Type(), [a])
    requires SetStatus(m, db.refs, db.store, key, a) == Success
    ensures key in db.store && !IsKey(m, key.Type(), a.id)
    ensures StoredOk(m, key.Type(), a.id, a.value)
    ensures forall o <- Refs(a.value) :: RefAt(m, db.refs, SwitchOfKey(m, key), o)
  {
    assert a in [a];
    assert AttrLawful(m, key.Type(), a.id);
    var sw := if key.OidKey? then m.switchOf(key.oid) else key.switchId;
    ValueAccepted(m, db.refs, key.Type(), m.Of(key.Type(), a.id), sw, a.value, false);
    forall o | o in Refs(a.value) ensures RefAt(m, db.refs, SwitchOfKey(m, key), o) {
      assert RefOk(m, db.refs, sw, o);
    }
  }

  /** Replacing one attribute moves the object's bag by the difference of the values. */
  lemma SetBag(db: Db, key: MetaKey, a: Attribute)
    requires key in db.store
    ensures ObjectBag(key, WithAttr(db.store[key], a)) + multiset(Previous(db, key, a.id))
         == ObjectBag(key, db.store[key]) + multiset(Refs(a.value))
  {
    var attrs := db.store[key];
    AttrBagUpdate(attrs, a.id, Canon(a.value));
    CanonRefs(a.value);
    if a.id in attrs {
      AttrBagSplit(attrs, a.id);
    } else {
      assert attrs - {a.id} == attrs;
    }
  }

  lemma SetStoreBag(db: Db, key: MetaKey, a: Attribute)
    requires key in db.store
    ensures StoreBag(db.store[key := WithAttr(db.store[key], a)]) + multiset(Previous(db, key, a.id))
         == StoreBag(db.store) + multiset(Refs(a.value))
  {
    var next := WithAttr(db.store[key], a);
    SetBag(db, key, a);
    StoreBagUpdate(db.store, key, next);
    StoreBagSplit(db.store, key);
    BagMoves(StoreBag(db.store - {key}), ObjectBag(key, db.store[key]), ObjectBag(key, next),
             multiset(Previous(db, key, a.id)), multiset(Refs(a.value)));
  }

  lemma BagMoves(rest: multiset<Oid>, x: multiset<Oid>, x': multiset<Oid>, was: multiset<Oid>, now: multiset<Oid>)
    requires x' + was == x + now
    ensures (x' + rest) + was == (x + rest) + now
  {
    assert (x' + rest) + was == (x' + was) + rest;
    assert (x + rest) + now == (x + now) + rest;
  }

  lemma CountMoves(x: multiset<Oid>, x': multiset<Oid>, was: multiset<Oid>, now: multiset<Oid>, o: Oid)
    requires x' + was == x + now
    ensures x'[o] + was[o] == x[o] + now[o]
  {
    assert (x' + was)[o] == (x + now)[o];
  }

  /** Set lowers the counts of the old value and raises those of the new one. */
  lemma SetConserves(db: Db, key: MetaKey, a: Attribute)
    requires Conserved(db) && key in db.store
    ensures Conserved(AfterSet(db, key, a))
  {
    forall o | o in db.refs ensures AfterSet(db, key, a).refs[o] == StoreBag(AfterSet(db, key, a).store)[o] {
      SetCount(db, key, a, o);
    }
  }

  lemma SetCount(db: Db, key: MetaKey, a: Attribute, o: Oid)
    requires Conserved(db) && key in db.store && o in db.refs
    ensures AfterSet(db, key, a).refs[o] == StoreBag(AfterSet(db, key, a).store)[o]
  {
    SetStoreBag(db, key, a);
    CountMoves(StoreBag(db.store), StoreBag(db.store[key := WithAttr(db.store[key], a)]),
               multiset(Previous(db, key, a.id)), multiset(Refs(a.value)), o);
  }

  lemma SetContained(m: Meta, db: Db, key: MetaKey, a: Attribute)
    requires Contained(m, db) && key in db.store
    requires forall o <- Refs(a.value) :: RefAt(m, db.refs, SwitchOfKey(m, key), o)
    ensures Contained(m, AfterSet(db, key, a))
  {
    var db' := AfterSet(db, key, a);
    assert db'.refs.Keys == db.refs.Keys;
    MoreRefs(m, db, db'.refs);
    assert BagOk(m, db'.refs, key, WithAttr(db.store[key], a)) by {
      assert BagOk(m, db.refs, key, db.store[key]);
      forall o | o in ObjectBag(key, WithAttr(db.store[key], a))
        ensures RefAt(m, db'.refs, SwitchOfKey(m, key), o)
      {
        SetBagMember(db, key, a, o);
        assert RefAt(m, db.refs, SwitchOfKey(m, key), o);
      }
    }
  }

  lemma SetBagMember(db: Db, key: MetaKey, a: Attribute, o: Oid)
    requires key in db.store && o in ObjectBag(key, WithAttr(db.store[key], a))
    ensures o in ObjectBag(key, db.store[key]) || o in Refs(a.value)
  {
    SetBag(db, key, a);
    assert o in ObjectBag(key, db.store[key]) + multiset(Refs(a.value));
  }

  lemma SetKeepsKeyText(m: Meta, t: ObjectType, attrs: Attrs, a: Attribute)
    requires !IsKey(m, t, a.id)
    ensures KeyText(m, t, WithAttr(attrs, a)) == KeyText(m, t, attrs)
  {
    assert KeyParts(m, t, WithAttr(attrs, a)) == KeyParts(m, t, attrs);
  }

  lemma SetAttrs(m: Meta, db: Db, key: MetaKey, a: Attribute)
    requires AttrsOk(m, db) && key in db.store && StoredOk(m, key.Type(), a.id, a.value)
    ensures AttrsOk(m, AfterSet(db, key, a))
  {
    CanonTyped(m.Of(key.Type(), a.id).valueType, a.value);
    assert ObjectOk(m, key.Type(), db.store[key]);
    assert ObjectOk(m, key.Type(), WithAttr(db.store[key], a));
  }

  lemma SetMandatory(m: Meta, db: Db, key: MetaKey, a: Attribute)
    requires MandatoryKept(m, db) && key in db.store
    ensures MandatoryKept(m, AfterSet(db, key, a))
  {
    var db' := AfterSet(db, key, a);
    forall k | k in db'.created ensures HasMandatory(m, k.Type(), db'.store[k]) {
      assert HasMandatory(m, k.Type(), db.store[k]);
      assert db.store[k].Keys <= db'.store[k].Keys;
    }
  }

  lemma SetPreserves(m: Meta, db: Db, key: MetaKey, a: Attribute)
    requires Settable(m, db, key, a)
    ensures key in db.store && Inv(m, AfterSet(db, key, a))
  {
    SetAccepts(m, db, key, a);
    SetConserves(db, key, a);
    SetContained(m, db, key, a);
    SetAttrs(m, db, key, a);
    SetMandatory(m, db, key, a);
    SetDomain(m, db, key, a);
    SetIndex(m, db, key, a);
    assert AfterSet(db, key, a).related == db.related;
  }

  lemma SetDomain(m: Meta, db: Db, key: MetaKey, a: Attribute)
    requires DomainAgrees(m, db) && key in db.store
    ensures DomainAgrees(m, AfterSet(db, key, a))
  {
    assert AfterSet(db, key, a).refs.Keys == db.refs.Keys;
  }

  lemma SetIndex(m: Meta, db: Db, key: MetaKey, a: Attribute)
    requires KeysAgree(m, db) && key in db.store && !IsKey(m, key.Type(), a.id)
    ensures KeysAgree(m, AfterSet(db, key, a))
  {
    SetKeepsKeyText(m, key.Type(), db.store[key], a);
    if key !in db.interrupted { assert KeyAgrees(m, db.keys, key, db.store[key]); }
  }

  // ----------------------------------------------------------------- remove

  /** Objects that can go together: entries, and oids nobody refers to. */
  ghost predicate Erasable(db: Db, ks: set<MetaKey>) {
    && ks <= db.store.Keys
    && (forall k <- ks :: k.OidKey? ==> k.oid in db.refs && db.refs[k.oid] == 0)
  }

  /** Removal lowers each count by exactly the occurrences the removed objects held. */
  lemma EraseConserves(db: Db, ks: set<MetaKey>)
    requires Conserved(db)
    ensures Conserved(Erased(db, ks))
  {
    StoreBagErase(db.store, ks);
  }

  lemma EraseContained(m: Meta, db: Db, ks: set<MetaKey>)
    requires Conserved(db) && Contained(m, db) && Erasable(db, ks)
    ensures Contained(m, Erased(db, ks))
  {
    var db' := Erased(db, ks);
    forall k | k in db'.store ensures BagOk(m, db'.refs, k, db'.store[k]) {
      assert BagOk(m, db.refs, k, db.store[k]);
      forall o | o in ObjectBag(k, db.store[k]) ensures RefAt(m, db'.refs, SwitchOfKey(m, k), o) {
        assert RefAt(m, db.refs, SwitchOfKey(m, k), o);
        InStoreBag(db.store, o);
        assert o !in OidsOf(ks);
      }
    }
  }

  lemma EraseDomain(m: Meta, db: Db, ks: set<MetaKey>)
    requires DomainAgrees(m, db) && ks <= db.store.Keys
    ensures DomainAgrees(m, Erased(db, ks))
  {
    var db' := Erased(db, ks);
    forall o | o in db'.refs ensures KeyOf(m, o) in db'.store {
      assert KeyOf(m, o) !in ks;
    }
    forall k | k in db'.store && k.OidKey? ensures k.oid in db'.refs && k == KeyOf(m, k.oid) {
      assert k == KeyOf(m, k.oid);
      assert k.oid !in OidsOf(ks);
    }
  }

  lemma EraseRest(m: Meta, db: Db, ks: set<MetaKey>)
    requires AttrsOk(m, db) && KeysAgree(m, db) && MandatoryKept(m, db)
    ensures AttrsOk(m, Erased(db, ks))
    ensures KeysAgree(m, Erased(db, ks)) && MandatoryKept(m, Erased(db, ks))
  {
    var db' := Erased(db, ks);
    forall k | k in db'.store
      ensures k !in db'.interrupted ==> KeyAgrees(m, db'.keys, k, db'.store[k])
      ensures ObjectOk(m, k.Type(), db'.store[k])
    {
      if k !in db.interrupted { assert KeyAgrees(m, db.keys, k, db.store[k]); }
    }
    forall k | k in db'.created ensures HasMandatory(m, k.Type(), db'.store[k]) {
      assert HasMandatory(m, k.Type(), db.store[k]);
    }
  }

  lemma ErasePreserves(m: Meta, db: Db, ks: set<MetaKey>)
    requires Inv(m, db) && Erasable(db, ks)
    ensures Inv(m, Erased(db, ks))
  {
    EraseConserves(db, ks);
    EraseContained(m, db, ks);
    EraseDomain(m, db, ks);
    EraseRest(m, db, ks);
    assert Erased(db, ks).related == db.related;
  }

  /** Erasing in two rounds is erasing at once. */
  lemma EraseTwice(db: Db, ks: set<MetaKey>, js: set<MetaKey>)
    requires ks !! js
    ensures Erased(Erased(db, ks), js) == Erased(db, ks + js)
  {
    var one, two, all := Erased(db, ks), Erased(Erased(db, ks), js), Erased(db, ks + js);
    EraseTwiceRefs(db, ks, js);
    SameMap(two.store, all.store);
    SameMap(two.keys, all.keys);
  }

  lemma EraseTwiceRefs(db: Db, ks: set<MetaKey>, js: set<MetaKey>)
    requires ks !! js
    ensures Erased(Erased(db, ks), js).refs == Erased(db, ks + js).refs
  {
    var two, all := Erased(Erased(db, ks), js).refs, Erased(db, ks + js).refs;
    assert OidsOf(ks + js) == OidsOf(ks) + OidsOf(js);
    EraseTwiceBag(db.store, ks, js);
    assert two.Keys == all.Keys;
    forall o | o in two ensures two[o] == all[o] {
      assert two[o] == db.refs[o] - StoreBag(Restrict(db.store, ks))[o]
                                  - StoreBag(Restrict(db.store - ks, js))[o];
    }
  }

  lemma EraseTwiceBag(s: Store, ks: set<MetaKey>, js: set<MetaKey>)
    requires ks !! js
    ensures StoreBag(Restrict(s, ks + js)) == StoreBag(Restrict(s, ks)) + StoreBag(Restrict(s - ks, js))
  {
    var both := Restrict(s, ks + js);
    StoreBagErase(both, ks);
    SameMap(Restrict(both, ks), Restrict(s, ks));
    SameMap(both - ks, Restrict(s - ks, js));
  }

  // --------------------------------------------------------- snoop and reset

  function Snooped(m: Meta, db: Db, oid: Oid): Db {
    db.(refs := db.refs[oid := 0], store := db.store[KeyOf(m, oid) := map[]])
  }

  lemma SnoopConserves(m: Meta, db: Db, oid: Oid)
    requires Conserved(db) && Contained(m, db) && KeyOf(m, oid) !in db.store
    requires oid != NULL_OID && oid !in db.refs
    ensures Conserved(Snooped(m, db, oid))
  {
    var db' := Snooped(m, db, oid);
    EmptyObjectBag(db.store, KeyOf(m, oid));
    UncountedUnused(m, db, oid);
    forall o | o in db'.refs ensures db'.refs[o] == StoreBag(db'.store)[o] {}
  }

  lemma EmptyObjectBag(s: Store, k: MetaKey)
    requires k.OidKey? && k !in s
    ensures StoreBag(s[k := map[]]) == StoreBag(s)
  {
    StoreBagUpdate(s, k, map[]);
    EmptyAttrBag();
    assert s - {k} == s && ObjectBag(k, map[]) == multiset{};
  }

  lemma SnoopContained(m: Meta, db: Db, oid: Oid)
    requires Contained(m, db)
    ensures Contained(m, Snooped(m, db, oid))
  {
    var k, db' := KeyOf(m, oid), Snooped(m, db, oid);
    EmptyAttrBag();
    MoreRefs(m, db, db'.refs);
    assert BagOk(m, db'.refs, k, map[]);
  }

  lemma SnoopRest(m: Meta, db: Db, oid: Oid)
    requires AttrsOk(m, db) && MandatoryKept(m, db) && KeysAgree(m, db) && KeyOf(m, oid) !in db.store
    ensures AttrsOk(m, Snooped(m, db, oid)) && MandatoryKept(m, Snooped(m, db, oid))
    ensures KeysAgree(m, Snooped(m, db, oid))
  {
    var k := KeyOf(m, oid);
    assert KeyParts(m, k.Type(), map[]) == map[];
    assert KeyAgrees(m, db.keys, k, map[]);
  }

  lemma SnoopDomain(m: Meta, db: Db, oid: Oid)
    requires DomainAgrees(m, db) && oid != NULL_OID
    ensures DomainAgrees(m, Snooped(m, db, oid))
  {
  }

  lemma SnoopKeepsInv(m: Meta, db: Db, oid: Oid)
    requires Inv(m, db) && oid != NULL_OID && oid !in db.refs && KeyOf(m, oid) !in db.store
    ensures Inv(m, Snooped(m, db, oid))
  {
    SnoopDomain(m, db, oid);
    SnoopConserves(m, db, oid);
    SnoopContained(m, db, oid);
    SnoopRest(m, db, oid);
    assert Snooped(m, db, oid).related == db.related;
  }

  /** Learning an oid from the vendor adds an object without attributes or references. */
  lemma SnoopPreserves(m: Meta, db: Db, oid: Oid)
    requires Inv(m, db)
    ensures Inv(m, AfterSnoop(m, db, oid))
  {
    if oid != NULL_OID && oid !in db.refs && m.typeOf(oid) != NULL_TYPE {
      SnoopKeepsInv(m, db, oid);
    }
  }

  lemma {:induction false} SnoopsPreserve(m: Meta, db: Db, oids: seq<Oid>)
    requires Inv(m, db)
    ensures Inv(m, AfterSnoops(m, db, oids))
    decreases |oids|
  {
    if oids != [] {
      SnoopPreserves(m, db, oids[0]);
      SnoopsPreserve(m, AfterSnoop(m, db, oids[0]), oids[1..]);
    }
  }
}
