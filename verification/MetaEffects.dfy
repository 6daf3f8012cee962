/** What each call and notification does to the maps, said of the maps themselves: which
    objects and attributes are stored afterwards, which oids are counted and by how much
    each count moves, and what an object holds. */
module MetaEffects {
  import opened Sai
  import opened Stored
  import opened MetaState
  import opened RefBags
  import opened MetaInvariant
  import opened MetaSteps
  import opened MetaRuns
  import opened MetaRules
  import opened MetaReady
  import MetaFindings

  // ------------------------------------------------------ what an object holds

  /** A value holds an oid as itself or in its list; an ACL value only while enabled. */
  predicate ValueHolds(v: Value, o: Oid) { (v.Plain? || v.enable) && Mentions(v.data, o) }

  predicate KeyHolds(k: MetaKey, o: Oid) {
    match k
    case OidKey(_, _) => false
    case FdbKey(sw, _, bv) => o == sw || o == bv
    case RouteKey(sw, vr, _) => o == sw || o == vr
    case NeighborKey(sw, rif, _) => o == sw || o == rif
  }

  ghost predicate ObjectHolds(k: MetaKey, a: Attrs, o: Oid) {
    KeyHolds(k, o) || exists id <- a :: ValueHolds(a[id], o)
  }

  /** How often a value holds an oid. */
  function Times(v: Value, o: Oid): nat {
    match v.data
    case OidV(oid) => if (v.Plain? || v.enable) && oid == o then 1 else 0
    case OidListV(Items(items)) => if v.Plain? || v.enable then multiset(items)[o] else 0
    case _ => 0
  }

  function KeyTimes(k: MetaKey, o: Oid): nat {
    match k
    case OidKey(_, _) => 0
    case FdbKey(sw, _, bv) => (if sw == o then 1 else 0) + if bv == o then 1 else 0
    case RouteKey(sw, vr, _) => (if sw == o then 1 else 0) + if vr == o then 1 else 0
    case NeighborKey(sw, rif, _) => (if sw == o then 1 else 0) + if rif == o then 1 else 0
  }

  lemma TimesRule(v: Value, o: Oid)
    ensures multiset(Refs(v))[o] == Times(v, o) && (o in Refs(v) <==> ValueHolds(v, o))
  {
  }

  lemma KeyTimesRule(k: MetaKey, o: Oid)
    ensures multiset(k.Members())[o] == KeyTimes(k, o) && (o in k.Members() <==> KeyHolds(k, o))
  {
  }

  /** The occurrences an object's bag adds up: those in its key and in each attribute. */
  lemma ObjectAddsUp(k: MetaKey, a: Attrs, id: AttrId, v: Value, o: Oid)
    requires id !in a
    ensures ObjectBag(k, map[])[o] == KeyTimes(k, o)
    ensures ObjectBag(k, a[id := v])[o] == Times(v, o) + ObjectBag(k, a)[o]
  {
    EmptyAttrBag();
    KeyTimesRule(k, o);
    TimesRule(v, o);
    AttrBagUpdate(a, id, v);
    assert a - {id} == a;
  }

  /** The occurrences a count adds up: those in each stored object. */
  lemma StoreAddsUp(s: Store, k: MetaKey, a: Attrs, o: Oid)
    requires k !in s
    ensures StoreBag(map[])[o] == 0
    ensures StoreBag(s[k := a])[o] == ObjectBag(k, a)[o] + StoreBag(s)[o]
  {
    EmptyStoreBag();
    StoreBagUpdate(s, k, a);
    assert s - {k} == s;
  }

  lemma HoldsRule(k: MetaKey, a: Attrs, o: Oid)
    ensures o in ObjectBag(k, a) <==> ObjectHolds(k, a, o)
  {
    InAttrBag(a, o);
    KeyTimesRule(k, o);
    forall id | id in a ensures o in Refs(a[id]) <==> ValueHolds(a[id], o) {
      TimesRule(a[id], o);
    }
  }

  /** In every reachable state a count is zero exactly when no object holds the oid, and
      every oid an object holds is null or counted. */
  lemma ZeroExactly(m: Meta, db: Db, o: Oid)
    requires Lawful(m) && Reachable(m, db)
    ensures o in db.refs ==> (db.refs[o] == 0 <==> forall k <- db.store :: !ObjectHolds(k, db.store[k], o))
    ensures forall k <- db.store :: ObjectHolds(k, db.store[k], o) ==> o == NULL_OID || o in db.refs
  {
    ReferenceConservation(m, db, o);
    InStoreBag(db.store, o);
    forall k | k in db.store ensures o in ObjectBag(k, db.store[k]) <==> ObjectHolds(k, db.store[k], o) {
      HoldsRule(k, db.store[k], o);
    }
  }

  // ------------------------------------------------------------------- create

  /** The object holds the stored form of exactly these attributes. */
  ghost predicate StoresAll(a: Attrs, attrs: seq<Attribute>) {
    && (forall i :: 0 <= i < |attrs| ==> attrs[i].id in a && a[attrs[i].id] == Canon(attrs[i].value))
    && (forall id <- a :: Passed(attrs, id))
  }

  lemma StoresAllRule(attrs: seq<Attribute>)
    requires Distinct(attrs)
    ensures StoresAll(StoredAttrs(attrs), attrs)
  {
    StoredIds(attrs);
    forall i | 0 <= i < |attrs|
      ensures attrs[i].id in StoredAttrs(attrs) && StoredAttrs(attrs)[attrs[i].id] == Canon(attrs[i].value)
    {
      LastAt(attrs, i);
    }
  }

  /** A created object is the only new one, and holds the stored form of its attributes. */
  lemma CreateStores(m: Meta, db: Db, key: MetaKey, attrs: seq<Attribute>, garbage: bool, k: MetaKey)
    requires Distinct(attrs) && AllStorable(attrs) && key !in db.store
    ensures var db' := AfterPostCreate(m, db, key, attrs, garbage);
            && key in db'.store && StoresAll(db'.store[key], attrs)
            && (k != key ==> (k in db'.store <==> k in db.store) && (k in db.store ==> db'.store[k] == db.store[k]))
            && db'.related == db.related
  {
    StoresAllRule(attrs);
  }

  /** An accepted create whose attributes print stores them. */
  lemma AcceptedStores(m: Meta, db: Db, key: MetaKey, sw: Oid, attrs: seq<Attribute>, garbage: bool)
    requires Typed(m, key.Type(), attrs) && CreateStatus(m, db, key, sw, attrs) == Success
    requires key !in db.store
    ensures AllStorable(attrs) ==>
              var store := AfterPostCreate(m, db, key, attrs, garbage).store;
              key in store && StoresAll(store[key], attrs)
  {
    MetaFindings.AcceptedDistinct(m, db, key, sw, attrs);
    if AllStorable(attrs) {
      CreateStores(m, db, key, attrs, garbage, key);
    }
  }

  /** Each count rises by what the created object holds, from zero for its own oid. */
  lemma CreateCounts(m: Meta, db: Db, key: MetaKey, attrs: seq<Attribute>, garbage: bool, o: Oid)
    requires AllStorable(attrs) && key !in db.store && (key.OidKey? ==> key.oid !in db.refs)
    ensures var db' := AfterPostCreate(m, db, key, attrs, garbage);
            && key in db'.store
            && (o in db'.refs <==> o in db.refs || key == OidKey(key.Type(), o))
            && (o in db'.refs ==>
                  db'.refs[o] == (if o in db.refs then db.refs[o] else 0) + ObjectBag(key, db'.store[key])[o])
  {
  }

  /** The index gains the created object exactly when a key attribute is passed, or when the
      uninitialised flag was set. */
  lemma CreateIndexes(m: Meta, db: Db, key: MetaKey, attrs: seq<Attribute>, garbage: bool, k: MetaKey)
    requires AllStorable(attrs) && key !in db.keys
    ensures var db' := AfterPostCreate(m, db, key, attrs, garbage);
            var indexed := garbage || exists i :: 0 <= i < |attrs| && m.Has(key.Type(), attrs[i].id)
                                                  && m.Of(key.Type(), attrs[i].id).key;
            && (key in db'.keys <==> indexed)
            && (indexed ==> db'.keys[key] == KeyText(m, key.Type(), db'.store[key]))
            && (k != key ==> (k in db'.keys <==> k in db.keys) && (k in db.keys ==> db'.keys[k] == db.keys[k]))
  {
    HasKeysRule(m, key.Type(), attrs);
  }

  /** A create interrupted at attribute `n`, the first that does not print, leaves the
      attributes before it and no index entry. */
  lemma InterruptStores(m: Meta, db: Db, key: MetaKey, attrs: seq<Attribute>, garbage: bool, n: nat, k: MetaKey)
    requires Distinct(attrs) && key !in db.store && n < |attrs| && !Storable(attrs[n].value)
    requires forall i :: 0 <= i < n ==> Storable(attrs[i].value)
    ensures var db' := AfterPostCreate(m, db, key, attrs, garbage);
            && key in db'.store && StoresAll(db'.store[key], attrs[..n])
            && (k != key ==> (k in db'.store <==> k in db.store) && (k in db.store ==> db'.store[k] == db.store[k]))
            && db'.keys == db.keys && db'.related == db.related && key !in db'.created - db.created
  {
    StopsAt(attrs, 0, n);
    StoresAllRule(attrs[..n]);
  }

  lemma {:induction false} StopsAt(attrs: seq<Attribute>, i: nat, n: nat)
    requires i <= n < |attrs| && !Storable(attrs[n].value)
    requires forall j :: i <= j < n ==> Storable(attrs[j].value)
    ensures Stops(attrs, i) == n
    decreases n - i
  {
    if i < n {
      StopsAt(attrs, i + 1, n);
    }
  }

  // ---------------------------------------------------------------------- set

  /** Set stores the canonical form of one attribute of one object and touches no other. */
  lemma SetStores(db: Db, key: MetaKey, a: Attribute, k: MetaKey, id: AttrId)
    requires key in db.store
    ensures var db' := AfterSet(db, key, a);
            && db'.store.Keys == db.store.Keys
            && (k in db.store && k != key ==> db'.store[k] == db.store[k])
            && a.id in db'.store[key] && db'.store[key][a.id] == Canon(a.value)
            && (id != a.id ==> (id in db'.store[key] <==> id in db.store[key])
                               && (id in db.store[key] ==> db'.store[key][id] == db.store[key][id]))
            && db'.related == db.related && db'.keys == db.keys
  {
  }

  /** Each count falls by what the previous value held and rises by what the new one holds. */
  lemma SetCounts(db: Db, key: MetaKey, a: Attribute, o: Oid)
    requires key in db.store && o in db.refs
    ensures var db' := AfterSet(db, key, a);
            && db'.refs.Keys == db.refs.Keys
            && db'.refs[o] == db.refs[o] + Times(a.value, o)
                              - if a.id in db.store[key] then Times(db.store[key][a.id], o) else 0
  {
    TimesRule(a.value, o);
    if a.id in db.store[key] {
      TimesRule(db.store[key][a.id], o);
    }
  }

  // ------------------------------------------------------------------- remove

  /** Erasing one object takes it and nothing else from the store and the index. */
  lemma EraseStores(db: Db, key: MetaKey, k: MetaKey)
    ensures var db' := Erased(db, {key});
            && key !in db'.store && key !in db'.keys
            && (k != key ==> (k in db'.store <==> k in db.store) && (k in db.store ==> db'.store[k] == db.store[k]))
            && (k != key ==> (k in db'.keys <==> k in db.keys) && (k in db.keys ==> db'.keys[k] == db.keys[k]))
            && db'.related == db.related
  {
  }

  /** The erased object's oid is no longer counted, and each other count falls by what the
      object held. */
  lemma EraseCounts(db: Db, key: MetaKey, o: Oid)
    requires key in db.store
    ensures var db' := Erased(db, {key});
            && (o in db'.refs <==> o in db.refs && key != OidKey(key.Type(), o))
            && (o in db'.refs ==> db'.refs[o] == db.refs[o] - ObjectBag(key, db.store[key])[o])
  {
    RestrictOne(db.store, key);
    OidsOfOne(key, o);
    ErasedRefs(db, key);
  }

  lemma ErasedRefs(db: Db, key: MetaKey)
    ensures Erased(db, {key}).refs == Subtracted(db.refs, StoreBag(Restrict(db.store, {key}))) - OidsOf({key})
  {
  }

  lemma OidsOfOne(key: MetaKey, o: Oid)
    ensures o in OidsOf({key}) <==> key == OidKey(key.Type(), o)
  {
    if key == OidKey(key.Type(), o) {
      assert key in {key};
    }
  }

  /** A removal of anything but a switch or a port with related objects erases the object. */
  lemma RemoveErases(m: Meta, db: Db, key: MetaKey)
    requires key.Type() != SWITCH && !(key.Type() == PORT && key.OidKey? && key.oid in db.related)
    ensures AfterRemove(m, db, key) == Erased(db, {key})
  {
  }

  /** After a removal of anything but a switch the object is neither stored nor counted. */
  lemma RemoveTakes(m: Meta, db: Db, key: MetaKey)
    requires key.Type() != SWITCH
    ensures key !in AfterRemove(m, db, key).store && key !in AfterRemove(m, db, key).keys
    ensures key.OidKey? ==> key.oid !in AfterRemove(m, db, key).refs
  {
    assert key in {key} + RelatedKeys(m, db, NULL_OID);
    if key.OidKey? {
      ErasedOid(m, db, key);
    }
  }

  lemma ErasedOid(m: Meta, db: Db, key: MetaKey)
    requires key.OidKey?
    ensures key.oid in OidsOf({key}) && key.oid in OidsOf({key} + RelatedKeys(m, db, key.oid))
  {
    assert key in {key} && key in {key} + RelatedKeys(m, db, key.oid);
  }

  lemma RestrictOne(s: Store, key: MetaKey)
    requires key in s
    ensures StoreBag(Restrict(s, {key})) == ObjectBag(key, s[key])
  {
    var one: Store := map[key := s[key]];
    assert Restrict(s, {key}) == one;
    StoreBagSplit(one, key);
    assert one - {key} == map[];
    EmptyStoreBag();
  }

  // ------------------------------------------------------------ learned oids

  /** The oid is non-null, of a known type and not counted yet. */
  predicate IsNew(m: Meta, db: Db, o: Oid) { o != NULL_OID && m.typeOf(o) != NULL_TYPE && o !in db.refs }

  /** Learning oids adds the new ones, counted from zero, each with an object of its type
      without attributes if there was none, and changes nothing else. */
  lemma {:induction false} SnoopsEffect(m: Meta, db: Db, oids: seq<Oid>, k: MetaKey, o: Oid)
    ensures var db' := AfterSnoops(m, db, oids);
            && (o in db'.refs <==> o in db.refs || (o in oids && IsNew(m, db, o)))
            && (o in db.refs ==> db'.refs[o] == db.refs[o])
            && (o in db'.refs && o !in db.refs ==> db'.refs[o] == 0)
            && (k in db'.store <==>
                  || k in db.store
                  || (k.OidKey? && k.oid in oids && IsNew(m, db, k.oid) && k.objectType == m.typeOf(k.oid)))
            && (k in db.store ==> db'.store[k] == db.store[k])
            && (k in db'.store && k !in db.store ==> db'.store[k] == map[])
            && db'.related == db.related && db'.keys == db.keys && db'.created == db.created
    decreases |oids|
  {
    if oids != [] {
      SnoopsEffect(m, AfterSnoop(m, db, oids[0]), oids[1..], k, o);
    }
  }

  /** What a get learns: the oids its values hold. */
  lemma {:induction false} ResultsHold(results: seq<Attribute>, o: Oid)
    ensures o in ResultOids(results) <==> exists i :: 0 <= i < |results| && ValueHolds(results[i].value, o)
  {
    if results != [] {
      TimesRule(results[0].value, o);
      ResultsHold(results[1..], o);
      if exists i :: 0 <= i < |results[1..]| && ValueHolds(results[1..][i].value, o) {
        var i :| 0 <= i < |results[1..]| && ValueHolds(results[1..][i].value, o);
        assert ValueHolds(results[i + 1].value, o);
      }
      if exists i :: 0 <= i < |results| && ValueHolds(results[i].value, o) {
        var i :| 0 <= i < |results| && ValueHolds(results[i].value, o);
        assert i > 0 ==> ValueHolds(results[1..][i - 1].value, o);
      }
    }
  }

  /** A get of a port relates to it the elements of its queue, scheduler group and priority
      group lists; a get of anything else relates nothing. */
  lemma GetRelates(m: Meta, db: Db, key: MetaKey, results: seq<Attribute>, p: Oid, o: Oid)
    ensures var db' := AfterGet(m, db, key, results);
            (p in db'.related && o in db'.related[p]) <==>
              || (p in db.related && o in db.related[p])
              || (key == OidKey(PORT, p)
                  && exists i :: 0 <= i < |results| && results[i].id in {5, 7, 24}
                                 && Mentions(results[i].value.data, o))
  {
    SnoopsEffect(m, db, ResultOids(results), key, o);
    RelatedRule(results, o);
  }

  lemma RelatedRule(results: seq<Attribute>, o: Oid)
    ensures o in RelatedOids(results) <==>
              exists i :: 0 <= i < |results| && results[i].id in {5, 7, 24} && Mentions(results[i].value.data, o)
  {
    forall a | a in results ensures o in DataRefs(a.value.data) <==> Mentions(a.value.data, o) {
      MentionsRule(a.value.data, o);
    }
    if o in RelatedOids(results) {
      var a :| a in results && IsPortRelated(PORT, a.id) && o in DataRefs(a.value.data);
      var i :| 0 <= i < |results| && results[i] == a;
    }
    if exists i :: 0 <= i < |results| && results[i].id in {5, 7, 24} && Mentions(results[i].value.data, o) {
      var i :| 0 <= i < |results| && results[i].id in {5, 7, 24} && Mentions(results[i].value.data, o);
      assert results[i] in results;
    }
  }

  // --------------------------------------------------------- fdb notifications

  /** The oids a notification learns, with the bridge or VLAN of its key: those of its
      attributes of object id type. */
  lemma {:induction false} NotifiedHold(m: Meta, attrs: seq<Attribute>, o: Oid)
    ensures o in NotifiedOids(m, attrs) <==>
              exists i :: 0 <= i < |attrs| && m.Has(FDB_ENTRY, attrs[i].id)
                          && m.Of(FDB_ENTRY, attrs[i].id).valueType == PlainT(OidT) && Mentions(attrs[i].value.data, o)
  {
    if attrs != [] {
      MentionsRule(attrs[0].value.data, o);
      NotifiedHold(m, attrs[1..], o);
      if exists i :: 0 <= i < |attrs[1..]| && Notified(m, attrs[1..][i], o) {
        var i :| 0 <= i < |attrs[1..]| && Notified(m, attrs[1..][i], o);
        assert Notified(m, attrs[i + 1], o);
      }
      if exists i :: 0 <= i < |attrs| && Notified(m, attrs[i], o) {
        var i :| 0 <= i < |attrs| && Notified(m, attrs[i], o);
        assert i > 0 ==> Notified(m, attrs[1..][i - 1], o);
      }
    }
  }

  predicate Notified(m: Meta, a: Attribute, o: Oid) {
    m.Has(FDB_ENTRY, a.id) && m.Of(FDB_ENTRY, a.id).valueType == PlainT(OidT) && Mentions(a.value.data, o)
  }

  /** An aged entry, and a single flushed one, is gone; every other object is unchanged, and
      each count falls by what the entry held in its key and attributes. */
  lemma EntryGoes(m: Meta, db: Db, key: MetaKey, kind: FdbKind, attrs: seq<Attribute>, garbage: bool, k: MetaKey,
                  o: Oid)
    requires key.FdbKey? && Typed(m, FDB_ENTRY, attrs) && Typed(m, FDB_ENTRY, Completed(attrs))
    requires kind.Aged? || (kind.Flushed? && key.mac != [0, 0, 0, 0, 0, 0])
    ensures var db' := AfterNotice(m, db, key, kind, attrs, garbage);
            && key !in db'.store
            && (k != key ==> (k in db'.store <==> k in db.store) && (k in db.store ==> db'.store[k] == db.store[k]))
            && db'.refs.Keys == db.refs.Keys && db'.related == db.related
            && (o in db.refs ==>
                  db'.refs[o] == db.refs[o] - if key in db.store then ObjectBag(key, db.store[key])[o] else 0)
  {
    if key in db.store {
      EraseStores(db, key, k);
      EraseCounts(db, key, o);
      NoticeErases(m, db, key, kind, attrs, garbage);
    } else {
      NoticeIgnored(m, db, key, kind, attrs, garbage);
    }
  }

  lemma NoticeErases(m: Meta, db: Db, key: MetaKey, kind: FdbKind, attrs: seq<Attribute>, garbage: bool)
    requires key.FdbKey? && Typed(m, FDB_ENTRY, attrs) && Typed(m, FDB_ENTRY, Completed(attrs))
    requires kind.Aged? || (kind.Flushed? && key.mac != [0, 0, 0, 0, 0, 0])
    requires key in db.store
    ensures AfterNotice(m, db, key, kind, attrs, garbage) == Erased(db, {key})
    ensures Erased(db, {key}).refs.Keys == db.refs.Keys
  {
    assert OidsOf({key}) == {};
  }

  lemma NoticeIgnored(m: Meta, db: Db, key: MetaKey, kind: FdbKind, attrs: seq<Attribute>, garbage: bool)
    requires key.FdbKey? && Typed(m, FDB_ENTRY, attrs) && Typed(m, FDB_ENTRY, Completed(attrs))
    requires kind.Aged? || (kind.Flushed? && key.mac != [0, 0, 0, 0, 0, 0])
    requires key !in db.store
    ensures AfterNotice(m, db, key, kind, attrs, garbage) == db
  {
  }

  /** The attributes of a learned entry: those notified, with the dynamic type after a
      single one. */
  function LearnedAttrs(attrs: seq<Attribute>): seq<Attribute> {
    if |attrs| == 1 then [attrs[0], Attribute(0, Plain(NumberV(0)))] else attrs
  }

  lemma CompletedRule(attrs: seq<Attribute>)
    ensures Completed(attrs) == LearnedAttrs(attrs)
  {
  }

  /** A learned entry that was absent and is accepted holds exactly the notified attributes
      in stored form, and counts rise by what it holds. */
  lemma EntryLearned(m: Meta, db: Db, key: MetaKey, attrs: seq<Attribute>, garbage: bool, k: MetaKey, o: Oid)
    requires Lawful(m) && key.FdbKey? && Typed(m, FDB_ENTRY, attrs)
    requires Typed(m, FDB_ENTRY, Completed(attrs)) && Typed(m, FDB_ENTRY, LearnedAttrs(attrs))
    requires key !in db.store && CreateStatus(m, db, key, key.switchId, LearnedAttrs(attrs)) == Success
    ensures var db' := AfterNotice(m, db, key, Learned, attrs, garbage);
            && key in db'.store && StoresAll(db'.store[key], LearnedAttrs(attrs))
            && (k != key ==> (k in db'.store <==> k in db.store) && (k in db.store ==> db'.store[k] == db.store[k]))
            && (o in db'.refs <==> o in db.refs)
            && (o in db.refs ==> db'.refs[o] == db.refs[o] + ObjectBag(key, db'.store[key])[o])
            && db'.related == db.related
  {
    var learned := LearnedAttrs(attrs);
    CompletedRule(attrs);
    MetaFindings.AcceptedDistinct(m, db, key, key.switchId, learned);
    FdbCreatePrints(m, db, key, learned);
    LearnedCreates(m, db, key, attrs, garbage);
    CreateStores(m, db, key, learned, garbage, k);
    CreateCounts(m, db, key, learned, garbage, o);
  }

  lemma LearnedCreates(m: Meta, db: Db, key: MetaKey, attrs: seq<Attribute>, garbage: bool)
    requires key.FdbKey? && Typed(m, FDB_ENTRY, attrs)
    requires Typed(m, FDB_ENTRY, Completed(attrs)) && AllStorable(Completed(attrs))
    requires key !in db.store && CreateStatus(m, db, key, key.switchId, Completed(attrs)) == Success
    ensures AfterNotice(m, db, key, Learned, attrs, garbage) == AfterPostCreate(m, db, key, Completed(attrs), garbage)
  {
  }

  /** A learned entry that is stored already, or is not accepted, changes nothing. */
  lemma EntryNotLearned(m: Meta, db: Db, key: MetaKey, attrs: seq<Attribute>, garbage: bool)
    requires key.FdbKey? && Typed(m, FDB_ENTRY, attrs)
    requires Typed(m, FDB_ENTRY, Completed(attrs)) && Typed(m, FDB_ENTRY, LearnedAttrs(attrs))
    requires key in db.store || CreateStatus(m, db, key, key.switchId, LearnedAttrs(attrs)) != Success
    ensures AfterNotice(m, db, key, Learned, attrs, garbage) == db
  {
    CompletedRule(attrs);
  }

  // ------------------------------------------------------------------- a move

  /** Validation looks at which oids are counted and which objects are stored, not at
      counts or attributes. */
  lemma SetStatusSame(m: Meta, db: Db, db': Db, key: MetaKey, a: Attribute)
    requires Typed(m, key.Type(), [a]) && db'.refs.Keys == db.refs.Keys && db'.store.Keys == db.store.Keys
    ensures SetStatus(m, db'.refs, db'.store, key, a) == SetStatus(m, db.refs, db.store, key, a)
  {
    SetRule(m, db, key, a);
    SetRule(m, db', key, a);
    if m.Has(key.Type(), a.id) {
      AllowedSame(m, db.refs, db'.refs, key.Type(), m.Of(key.Type(), a.id), HomeSwitch(m, key), a.value);
    }
  }

  lemma AllowedSame(m: Meta, refs: References, refs': References, t: ObjectType, md: AttrMeta, sw: Oid, v: Value)
    requires refs'.Keys == refs.Keys
    ensures ValueAllowed(m, refs', t, md, sw, v, false) == ValueAllowed(m, refs, t, md, sw, v, false)
  {
    forall o: Oid ensures OidAllowed(m, refs', md, sw, o) == OidAllowed(m, refs, md, sw, o) {}
  }

  /** A move reaches the attributes before place `n`: one whose validation throws ends it. */
  ghost predicate MoveEnds(m: Meta, db: Db, key: MetaKey, attrs: seq<Attribute>, n: nat)
    requires Typed(m, key.Type(), attrs)
  {
    && n <= |attrs|
    && (forall i :: 0 <= i < n ==> StatusOf(m, db, key, attrs, i) != Fatal)
    && (n < |attrs| ==> StatusOf(m, db, key, attrs, n) == Fatal)
  }

  ghost function StatusOf(m: Meta, db: Db, key: MetaKey, attrs: seq<Attribute>, i: nat): Status
    requires i < |attrs| && Typed(m, key.Type(), attrs)
  {
    OneTyped(m, key.Type(), attrs, i);
    SetStatus(m, db.refs, db.store, key, attrs[i])
  }

  lemma OneTyped(m: Meta, t: ObjectType, attrs: seq<Attribute>, i: nat)
    requires i < |attrs| && Typed(m, t, attrs)
    ensures Typed(m, t, [attrs[i]])
  {
    assert attrs[i] in attrs;
  }

  /** Attribute `i` is the last of the first `n` that validates for its id. */
  ghost predicate LastSet(m: Meta, db: Db, key: MetaKey, attrs: seq<Attribute>, n: nat, i: nat)
    requires n <= |attrs| && Typed(m, key.Type(), attrs)
  {
    && i < n && StatusOf(m, db, key, attrs, i) == Success
    && forall j :: i < j < n && attrs[j].id == attrs[i].id ==> StatusOf(m, db, key, attrs, j) != Success
  }

  /** A move changes no object but the entry, and no oid starts or stops being counted. */
  lemma {:induction false} MoveKeepsRest(m: Meta, db: Db, key: MetaKey, attrs: seq<Attribute>, k: MetaKey)
    requires key in db.store && Typed(m, key.Type(), attrs)
    ensures var db' := AfterMove(m, db, key, attrs);
            && db'.store.Keys == db.store.Keys && db'.refs.Keys == db.refs.Keys
            && (k in db.store && k != key ==> db'.store[k] == db.store[k])
            && db'.related == db.related && db'.keys == db.keys
    decreases |attrs|
  {
    if attrs != [] {
      TypedSplit(m, key.Type(), attrs);
      if SetStatus(m, db.refs, db.store, key, attrs[0]) != Fatal {
        StepKeepsRest(m, db, key, attrs[0], k);
        MoveKeepsRest(m, AfterMoveStep(m, db, key, attrs[0]), key, attrs[1..], k);
      }
    }
  }

  lemma StepKeepsRest(m: Meta, db: Db, key: MetaKey, a: Attribute, k: MetaKey)
    requires key in db.store && Typed(m, key.Type(), [a])
    ensures var next := AfterMoveStep(m, db, key, a);
            && next.store.Keys == db.store.Keys && next.refs.Keys == db.refs.Keys
            && (k in db.store && k != key ==> next.store[k] == db.store[k])
            && next.related == db.related && next.keys == db.keys
  {
  }

  /** One step of a move. */
  lemma StepSets(m: Meta, db: Db, key: MetaKey, a: Attribute, id: AttrId)
    requires key in db.store && Typed(m, key.Type(), [a])
    ensures var next := AfterMoveStep(m, db, key, a);
            && key in next.store
            && (a.id == id && SetStatus(m, db.refs, db.store, key, a) == Success ==>
                  id in next.store[key] && next.store[key][id] == Canon(a.value))
            && (a.id != id || SetStatus(m, db.refs, db.store, key, a) != Success ==>
                  SameAt(db.store[key], next.store[key], id))
  {
  }

  predicate SameAt(a: Attrs, b: Attrs, id: AttrId) { (id in b <==> id in a) && (id in a ==> b[id] == a[id]) }

  lemma NoneShift(m: Meta, db: Db, next: Db, key: MetaKey, attrs: seq<Attribute>, n: nat, id: AttrId)
    requires Typed(m, key.Type(), attrs) && 0 < n <= |attrs|
    requires Typed(m, key.Type(), attrs[1..]) && SameStatuses(m, db, next, key, attrs)
    requires forall i :: 0 <= i < n && attrs[i].id == id ==> StatusOf(m, db, key, attrs, i) != Success
    ensures forall j :: 0 <= j < n - 1 && attrs[1..][j].id == id ==> StatusOf(m, next, key, attrs[1..], j) != Success
  {
    forall j: nat | j < n - 1 && attrs[1..][j].id == id
      ensures StatusOf(m, next, key, attrs[1..], j) != Success
    {
      assert StatusOf(m, next, key, attrs[1..], j) == StatusOf(m, db, key, attrs, j + 1);
    }
  }

  /** A move leaves an attribute of the entry without a value that validates as it was. */
  lemma {:induction false} MoveLeaves(m: Meta, db: Db, key: MetaKey, attrs: seq<Attribute>, n: nat, id: AttrId)
    requires key in db.store && Typed(m, key.Type(), attrs) && MoveEnds(m, db, key, attrs, n)
    requires forall i :: 0 <= i < n && attrs[i].id == id ==> StatusOf(m, db, key, attrs, i) != Success
    ensures key in AfterMove(m, db, key, attrs).store
    ensures SameAt(db.store[key], AfterMove(m, db, key, attrs).store[key], id)
    decreases |attrs|
  {
    if n == 0 {
      MoveEnded(m, db, key, attrs);
    } else {
      var next := MoveNext(m, db, key, attrs, n);
      StepSets(m, db, key, attrs[0], id);
      NoneShift(m, db, next, key, attrs, n, id);
      MoveLeaves(m, next, key, attrs[1..], n - 1, id);
    }
  }

  /** After the first step the rest of the attributes have the statuses they had before. */
  ghost predicate SameStatuses(m: Meta, db: Db, next: Db, key: MetaKey, attrs: seq<Attribute>)
    requires attrs != [] && Typed(m, key.Type(), attrs) && Typed(m, key.Type(), attrs[1..])
  {
    forall i: nat :: i + 1 < |attrs| ==>
      StatusOf(m, next, key, attrs[1..], i) == StatusOf(m, db, key, attrs, i + 1)
  }

  lemma LastSetShift(m: Meta, db: Db, next: Db, key: MetaKey, attrs: seq<Attribute>, n: nat, i: nat)
    requires Typed(m, key.Type(), attrs) && 0 < n <= |attrs| && LastSet(m, db, key, attrs, n, i)
    requires Typed(m, key.Type(), attrs[1..]) && SameStatuses(m, db, next, key, attrs)
    ensures i > 0 ==> LastSet(m, next, key, attrs[1..], n - 1, i - 1)
    ensures i == 0 ==> forall j :: 0 <= j < n - 1 && attrs[1..][j].id == attrs[0].id ==>
                         StatusOf(m, next, key, attrs[1..], j) != Success
  {
    var rest := attrs[1..];
    forall j: nat | i <= j < n - 1 && rest[j].id == attrs[i].id
      ensures StatusOf(m, next, key, rest, j) != Success
    {
      assert rest[j] == attrs[j + 1];
      assert StatusOf(m, next, key, rest, j) == StatusOf(m, db, key, attrs, j + 1);
    }
    if i > 0 {
      assert rest[i - 1] == attrs[i];
      assert StatusOf(m, next, key, rest, i - 1) == StatusOf(m, db, key, attrs, i);
    }
  }

  /** A move gives each attribute of the entry the last value that validates, in stored
      form. */
  lemma {:induction false} MoveSets(m: Meta, db: Db, key: MetaKey, attrs: seq<Attribute>, n: nat, i: nat)
    requires key in db.store && Typed(m, key.Type(), attrs) && MoveEnds(m, db, key, attrs, n)
    requires LastSet(m, db, key, attrs, n, i)
    ensures var db' := AfterMove(m, db, key, attrs);
            && key in db'.store && attrs[i].id in db'.store[key]
            && db'.store[key][attrs[i].id] == Canon(attrs[i].value)
    decreases |attrs|
  {
    if i == 0 {
      MoveSetsFirst(m, db, key, attrs, n);
    } else {
      var next := MoveNext(m, db, key, attrs, n);
      LastSetShift(m, db, next, key, attrs, n, i);
      MoveSets(m, next, key, attrs[1..], n - 1, i - 1);
      assert attrs[1..][i - 1] == attrs[i];
    }
  }

  lemma MoveSetsFirst(m: Meta, db: Db, key: MetaKey, attrs: seq<Attribute>, n: nat)
    requires key in db.store && Typed(m, key.Type(), attrs) && 0 < n && MoveEnds(m, db, key, attrs, n)
    requires LastSet(m, db, key, attrs, n, 0)
    ensures var db' := AfterMove(m, db, key, attrs);
            && key in db'.store && attrs[0].id in db'.store[key]
            && db'.store[key][attrs[0].id] == Canon(attrs[0].value)
  {
    var next := MoveNext(m, db, key, attrs, n);
    LastSetShift(m, db, next, key, attrs, n, 0);
    StepSets(m, db, key, attrs[0], attrs[0].id);
    MoveLeaves(m, next, key, attrs[1..], n - 1, attrs[0].id);
  }

  lemma MoveEnded(m: Meta, db: Db, key: MetaKey, attrs: seq<Attribute>)
    requires Typed(m, key.Type(), attrs) && MoveEnds(m, db, key, attrs, 0)
    ensures AfterMove(m, db, key, attrs) == db
  {
    if attrs != [] {
      assert StatusOf(m, db, key, attrs, 0) == Fatal;
    }
  }

  /** The state after the first step, seen by the rest of the move */
  lemma MoveNext(m: Meta, db: Db, key: MetaKey, attrs: seq<Attribute>, n: nat) returns (next: Db)
    requires key in db.store && Typed(m, key.Type(), attrs) && 0 < n && MoveEnds(m, db, key, attrs, n)
    ensures Typed(m, key.Type(), [attrs[0]]) && Typed(m, key.Type(), attrs[1..])
    ensures next == AfterMoveStep(m, db, key, attrs[0]) && key in next.store
    ensures AfterMove(m, db, key, attrs) == AfterMove(m, next, key, attrs[1..])
    ensures MoveEnds(m, next, key, attrs[1..], n - 1)
    ensures StatusOf(m, db, key, attrs, 0) == SetStatus(m, db.refs, db.store, key, attrs[0])
    ensures SameStatuses(m, db, next, key, attrs)
  {
    TypedSplit(m, key.Type(), attrs);
    next := AfterMoveStep(m, db, key, attrs[0]);
    StepKeepsRest(m, db, key, attrs[0], key);
    MoveShift(m, db, next, key, attrs, n);
    assert StatusOf(m, db, key, attrs, 0) != Fatal;
  }

  lemma MoveShift(m: Meta, db: Db, next: Db, key: MetaKey, attrs: seq<Attribute>, n: nat)
    requires Typed(m, key.Type(), attrs) && 0 < n <= |attrs| && MoveEnds(m, db, key, attrs, n)
    requires Typed(m, key.Type(), attrs[1..])
    requires next.refs.Keys == db.refs.Keys && next.store.Keys == db.store.Keys
    ensures MoveEnds(m, next, key, attrs[1..], n - 1)
    ensures SameStatuses(m, db, next, key, attrs)
  {
    forall i: nat | i + 1 < |attrs|
      ensures StatusOf(m, next, key, attrs[1..], i) == StatusOf(m, db, key, attrs, i + 1)
    {
      OneTyped(m, key.Type(), attrs, i + 1);
      SetStatusSame(m, db, next, key, attrs[i + 1]);
    }
  }

  /** Validating some attribute of the move throws. */
  ghost predicate MoveThrows(m: Meta, db: Db, key: MetaKey, attrs: seq<Attribute>)
    requires Typed(m, key.Type(), attrs)
  {
    MoveThrowsBefore(m, db, key, attrs, |attrs|)
  }

  ghost predicate MoveThrowsBefore(m: Meta, db: Db, key: MetaKey, attrs: seq<Attribute>, n: nat)
    requires Typed(m, key.Type(), attrs) && n <= |attrs|
  {
    exists i: nat :: i < n && StatusOf(m, db, key, attrs, i) == Fatal
  }

  /** How the handling of a notification ends once its oids are learned. */
  ghost function NoticeStatus(m: Meta, db: Db, key: MetaKey, kind: FdbKind, attrs: seq<Attribute>): Status
    requires key.FdbKey? && Typed(m, FDB_ENTRY, attrs) && Typed(m, FDB_ENTRY, Completed(attrs))
  {
    match kind
    case Learned => if key in db.store then Success else CreateStatus(m, db, key, key.switchId, Completed(attrs))
    case Move => if key in db.store && MoveThrows(m, db, key, attrs) then Fatal else Success
    case _ => Success
  }

  // -------------------------------------------------------- consolidated flush

  /** A consolidated flush takes exactly the fdb entries of the notified type, on the
      notified bridge port and of the notified bridge or VLAN where those are given and not
      null. */
  lemma FlushTakes(m: Meta, db: Db, key: MetaKey, attrs: seq<Attribute>, garbage: bool, entryType: Value, k: MetaKey)
    requires key.FdbKey? && Typed(m, FDB_ENTRY, attrs) && Typed(m, FDB_ENTRY, Completed(attrs))
    requires key.mac == [0, 0, 0, 0, 0, 0] && Gives(attrs, 0, entryType)
    ensures var db' := AfterNotice(m, db, key, Flushed, attrs, garbage);
            && (k in db.store ==>
                 (k !in db'.store <==>
                    && k.FdbKey? && 0 in db.store[k] && db.store[k][0].data == entryType.data
                    && (forall v :: Gives(attrs, 3, v) && v.data != OidV(0) ==>
                          3 in db.store[k] && db.store[k][3].data == v.data)
                    && (key.bvId != 0 ==> k.bvId == key.bvId)))
            && (k in db'.store ==> k in db.store && db'.store[k] == db.store[k])
            && db'.related == db.related
  {
    FindRule(attrs, 0, entryType);
    forall v ensures Gives(attrs, 3, v) <==> Find(attrs, 3) == Some(v) {
      FindRule(attrs, 3, v);
    }
    FlushNotice(m, db, key, attrs, garbage);
    if k in db.store {
      FlushRule(db.store, key.bvId, attrs, entryType, k);
    }
    FlushStore(db, Flushable(db.store, key.bvId, attrs), k);
  }

  lemma FlushStore(db: Db, ks: set<MetaKey>, k: MetaKey)
    ensures k in Erased(db, ks).store <==> k in db.store && k !in ks
    ensures k in Erased(db, ks).store ==> Erased(db, ks).store[k] == db.store[k]
  {
  }

  lemma FlushNotice(m: Meta, db: Db, key: MetaKey, attrs: seq<Attribute>, garbage: bool)
    requires key.FdbKey? && Typed(m, FDB_ENTRY, attrs) && Typed(m, FDB_ENTRY, Completed(attrs))
    requires key.mac == [0, 0, 0, 0, 0, 0]
    ensures AfterNotice(m, db, key, Flushed, attrs, garbage) == Erased(db, Flushable(db.store, key.bvId, attrs))
  {
  }

  lemma FlushRule(store: Store, bvId: Oid, attrs: seq<Attribute>, entryType: Value, k: MetaKey)
    requires Find(attrs, 0) == Some(entryType) && k in store
    requires forall v :: Gives(attrs, 3, v) <==> Find(attrs, 3) == Some(v)
    ensures k in Flushable(store, bvId, attrs) <==>
              && k.FdbKey? && 0 in store[k] && store[k][0].data == entryType.data
              && (forall v :: Gives(attrs, 3, v) && v.data != OidV(0) ==> 3 in store[k] && store[k][3].data == v.data)
              && (bvId != 0 ==> k.bvId == bvId)
  {
    var port := Find(attrs, 3);
    if port.Some? {
      assert Gives(attrs, 3, port.value);
    }
  }
}
