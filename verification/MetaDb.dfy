/** The metadata database as the program keeps it: global maps updated in place
    (sai_meta.cpp). `State()` is the abstract value; every method says which abstract step
    it takes, and no FATAL exception of a reference or existence check can be raised after
    validation, except by an attribute whose value does not print. */
module MetaDb {
  import opened Sai
  import opened Stored
  import opened MetaState
  import opened RefBags
  import opened MetaInvariant
  import opened MetaSteps
  import opened MetaRuns
  import opened MetaReady
  import opened MetaEffects
  import NumberText

  class MetaDb {
    const m: Meta
    var refs: References                   // ObjectReferences
    var store: Store                       // ObjectAttrHash
    var keys: map<MetaKey, string>         // AttributeKeys
    var related: map<Oid, set<Oid>>        // map_port_to_related_set
    ghost var created: set<MetaKey>        // history
    ghost var interrupted: set<MetaKey>    // history

    ghost function State(): Db
      reads this
    {
      Db(refs, store, keys, related, created, interrupted)
    }

    ghost predicate Valid()
      reads this
    {
      Lawful(m) && Inv(m, State())
    }

    constructor (m: Meta)
      requires Lawful(m)
      ensures Valid() && State() == EMPTY && this.m == m
    {
      this.m := m;
      refs, store, keys, related, created, interrupted := map[], map[], map[], map[], {}, {};
      new;
      EmptyInv(m);
    }

    /** `meta_init_db` */
    method Init()
      modifies this
      ensures State() == EMPTY
    {
      refs, store, keys, related, created, interrupted := map[], map[], map[], map[], {}, {};
    }

    // ------------------------------------------------------ reference counts

    /** `object_reference_inc` */
    method Inc(oid: Oid) returns (s: Status)
      modifies `refs
      ensures s == if oid == NULL_OID || oid in old(refs) then Success else Fatal
      ensures refs == if s == Success then Added(old(refs), multiset{oid} - multiset{NULL_OID}) else old(refs)
    {
      if oid == NULL_OID {
        assert refs == Added(refs, multiset{oid} - multiset{NULL_OID});
        return Success;
      }
      if oid !in refs {
        return Fatal;
      }
      refs := refs[oid := refs[oid] + 1];
      s := Success;
    }

    /** `object_reference_dec`, which lowers the count before it checks it */
    method Dec(oid: Oid) returns (s: Status)
      modifies `refs
      ensures s == if oid == NULL_OID || (oid in old(refs) && old(refs)[oid] > 0) then Success else Fatal
      ensures refs == Subtracted(old(refs), multiset{oid} - multiset{NULL_OID})
    {
      if oid == NULL_OID {
        assert refs == Subtracted(refs, multiset{oid} - multiset{NULL_OID});
        return Success;
      }
      if oid !in refs {
        assert refs == Subtracted(refs, multiset{oid} - multiset{NULL_OID});
        return Fatal;
      }
      refs := refs[oid := refs[oid] - 1];
      if refs[oid] < 0 {
        return Fatal;
      }
      s := Success;
    }

    /** `object_reference_inc` over the oids of one value */
    method IncAll(oids: seq<Oid>) returns (s: Status)
      requires NULL_OID !in refs
      requires Counted(refs, oids)
      modifies `refs
      ensures s == Success && refs == Added(old(refs), multiset(oids))
    {
      s := Success;
      var i := 0;
      assert refs == Added(refs, multiset(oids[..0]));
      while i < |oids|
        invariant 0 <= i <= |oids| && s == Success
        invariant refs == Added(old(refs), multiset(oids[..i]))
      {
        assert oids[i] in oids;
        assert oids[..i + 1] == oids[..i] + [oids[i]];
        ghost var before := refs;
        s := Inc(oids[i]);
        AddedTwice(old(refs), multiset(oids[..i]), multiset{oids[i]});
        i := i + 1;
      }
      assert oids[..i] == oids;
    }

    /** `object_reference_dec` over the oids of one value */
    method DecAll(oids: seq<Oid>) returns (s: Status)
      requires NULL_OID !in refs
      requires Covered(refs, oids)
      modifies `refs
      ensures s == Success && refs == Subtracted(old(refs), multiset(oids))
    {
      s := Success;
      var i := 0;
      assert refs == Subtracted(refs, multiset(oids[..0]));
      while i < |oids|
        invariant 0 <= i <= |oids| && s == Success
        invariant refs == Subtracted(old(refs), multiset(oids[..i]))
      {
        assert oids[i] in oids;
        assert oids[..i + 1] == oids[..i] + [oids[i]];
        assert oids == oids[..i] + ([oids[i]] + oids[i + 1..]);
        s := Dec(oids[i]);
        SubtractedTwice(old(refs), multiset(oids[..i]), multiset{oids[i]});
        i := i + 1;
      }
      assert oids[..i] == oids;
    }

    /** `object_reference_insert` */
    method Insert(oid: Oid) returns (s: Status)
      modifies `refs
      ensures s == if oid in old(refs) then Fatal else Success
      ensures refs == if s == Success then old(refs)[oid := 0] else old(refs)
    {
      if oid in refs {
        return Fatal;
      }
      refs := refs[oid := 0];
      s := Success;
    }

    /** `object_reference_remove` */
    method RemoveReference(oid: Oid) returns (s: Status)
      modifies `refs
      ensures s == if oid in old(refs) && old(refs)[oid] > 0 then Fatal else Success
      ensures refs == if s == Success then old(refs) - {oid} else old(refs)
    {
      if oid in refs {
        if refs[oid] > 0 {
          return Fatal;
        }
      }
      refs := refs - {oid};
      s := Success;
    }

    // ---------------------------------------------------------------- objects

    /** `create_object` */
    method CreateObject(key: MetaKey) returns (s: Status)
      modifies `store
      ensures s == if key in old(store) then Fatal else Success
      ensures store == if s == Success then old(store)[key := map[]] else old(store)
    {
      if key in store {
        return Fatal;
      }
      store := store[key := map[]];
      s := Success;
    }

    /** `set_object`, whose `SaiAttrWrapper` throws on a value that does not print. The null
        slot the throw may leave is not an attribute; `NullSlots` tells when it does. */
    method SetObject(key: MetaKey, a: Attribute) returns (s: Status)
      modifies `store
      ensures s == if key in old(store) && Storable(a.value) then Success else Fatal
      ensures s == Success ==> store == old(store)[key := WithAttr(old(store)[key], a)]
      ensures s == Fatal ==> store == old(store)
    {
      if key !in store {
        return Fatal;
      }
      if !Storable(a.value) {
        return Fatal;
      }
      store := store[key := WithAttr(store[key], a)];
      s := Success;
    }

    /** `remove_object` */
    method RemoveObject(key: MetaKey) returns (s: Status)
      modifies `store
      ensures s == if key in old(store) then Success else Fatal
      ensures store == old(store) - {key}
    {
      if key !in store {
        assert store == store - {key};
        return Fatal;
      }
      store := store - {key};
      s := Success;
    }

    // ------------------------------------------------------------- validation

    /** `meta_generic_validation_objlist` */
    method ValidateOidList(md: AttrMeta, sw: Oid, l: List<Oid>) returns (s: Status)
      ensures s == OidListStatus(m, refs, md, sw, l)
    {
      if l.Count() > MAX_LIST_COUNT {
        return InvalidParameter;
      }
      if l.Null? {
        return if l.count == 0 then Success else InvalidParameter;
      }
      var oids: set<Oid>, objectType, i := {}, NULL_TYPE, 0;
      while i < |l.items|
        invariant 0 <= i <= |l.items|
        invariant forall o :: o in oids <==> o in l.items[..i] && o != NULL_OID
        invariant objectType == LastType(m, l.items[..i])
        invariant forall j: nat :: j < i ==> ItemOk(m, refs, md, sw, l.items, j)
      {
        var oid := l.items[i];
        assert l.items[..i + 1] == l.items[..i] + [oid];
        assert l.items[..i + 1][..i] == l.items[..i];
        if oid in oids {
          assert !ItemOk(m, refs, md, sw, l.items, i);
          return InvalidParameter;
        }
        if oid == NULL_OID {
          if !md.allowNull {
            assert !ItemOk(m, refs, md, sw, l.items, i);
            return InvalidParameter;
          }
          i := i + 1;
          continue;
        }
        oids := oids + {oid};
        var ot := m.typeOf(oid);
        if ot == NULL_TYPE || ot !in md.allowed || oid !in refs
           || (i > 1 && objectType != ot)
           || m.switchOf(oid) !in refs || m.switchOf(oid) != sw
        {
          assert !ItemOk(m, refs, md, sw, l.items, i);
          return InvalidParameter;
        }
        objectType := ot;
        i := i + 1;
      }
      s := Success;
    }

    /** The value switch of `meta_generic_validation_create` and `..._set` */
    method ValidateValue(t: ObjectType, md: AttrMeta, sw: Oid, v: Value, creating: bool) returns (s: Status)
      requires WellTyped(md.valueType, v)
      ensures s == ValueStatus(m, refs, t, md, sw, v, creating)
    {
      var skip := if v.Plain?
                  then !creating && t == SCHEDULER_GROUP && md.id == SCHEDULER_GROUP_PROFILE
                       && v.data == OidV(NULL_OID)
                  else !v.enable;
      if md.valueType.t.OidT? && !skip {
        s := ValidateOidList(md, sw, Items([v.data.oid]));
      } else if md.valueType.t.OidListT? && !skip {
        s := ValidateOidList(md, sw, v.data.oids);
      } else {
        s := match v
          case Plain(d) => PlainStatus(m, refs, t, md, sw, d, creating)
          case Field(enable, d, _) => AclStatus(m, refs, md, sw, enable, d)
          case Action(enable, d) => AclStatus(m, refs, md, sw, enable, d);
      }
      if s == Success && md.isEnum && (!v.data.NumberV? || !AllowedEnum(md, v.data.n)) {
        s := InvalidParameter;
      }
    }

    /** `construct_key`: the parts are collected by attribute id and joined in its order, so
        the text depends on the attributes alone and not on the order they are listed in. */
    method ConstructKey(t: ObjectType, attrs: seq<Attribute>) returns (key: string)
      requires KeyTypesLawful(m) && Typed(m, t, attrs)
      ensures key == KeyText(m, t, StoredAttrs(attrs))
    {
      var parts := CollectParts(t, attrs);
      key := JoinInOrder(parts);
    }

    method CollectParts(t: ObjectType, attrs: seq<Attribute>) returns (parts: map<AttrId, string>)
      requires KeyTypesLawful(m) && Typed(m, t, attrs)
      ensures parts == KeyParts(m, t, StoredAttrs(attrs))
    {
      parts := map[];
      var i := 0;
      ghost var done: Attrs := map[];
      assert StoredAttrs(attrs[..0]) == map[];
      while i < |attrs|
        invariant 0 <= i <= |attrs|
        invariant done == StoredAttrs(attrs[..i])
        invariant parts == KeyParts(m, t, done)
      {
        assert attrs[i] in attrs;
        KeyPartsStep(m, t, done, attrs[i]);
        parts := AddPart(t, attrs[i], parts);
        StoreStep(attrs, i);
        done := WithAttr(done, attrs[i]);
        i := i + 1;
      }
      assert attrs[..i] == attrs;
    }

    method AddPart(t: ObjectType, a: Attribute, parts: map<AttrId, string>) returns (next: map<AttrId, string>)
      ensures next == if IsKey(m, t, a.id) then parts[a.id := KeyPart(m.Of(t, a.id), a.value)] else parts
    {
      next := parts;
      if IsKey(m, t, a.id) {
        var md := m.Of(t, a.id);
        if a.value.data.NumberListV? {
          var lanes := JoinNumbers(a.value.data.numbers.Elements());
          next := parts[a.id := md.name + ":" + lanes];
        } else {
          next := parts[a.id := KeyPart(md, a.value)];
        }
      }
    }

    /** `meta_generic_validation_create`. Its five passes over the attribute list and the
        metadata are the five methods below. */
    method ValidateCreate(key: MetaKey, sw: Oid, attrs: seq<Attribute>) returns (s: Status)
      requires Lawful(m) && Typed(m, key.Type(), attrs)
      ensures s == CreateStatus(m, State(), key, sw, attrs)
    {
      if |attrs| > MAX_LIST_COUNT {
        return InvalidParameter;
      }
      var t := key.Type();
      var switchId := NULL_OID;
      if t != SWITCH {
        switchId := SwitchFor(key, sw);
        if !SwitchOk(m, refs, store, switchId) {
          return InvalidParameter;
        }
      }
      if !MembersOk(m, refs, key, switchId) {
        return InvalidParameter;
      }
      var hasKeys;
      s, hasKeys := ValidateAttrs(t, switchId, attrs);
      if s == Success {
        s := ValidateWholeList(key, attrs, hasKeys);
      }
    }

    method ValidateWholeList(key: MetaKey, attrs: seq<Attribute>, hasKeys: bool) returns (s: Status)
      requires Lawful(m) && Typed(m, key.Type(), attrs)
      requires hasKeys <==> HasKeys(m, key.Type(), attrs)
      ensures s == WholeListStatus(m, State(), key, attrs)
    {
      var t := key.Type();
      if !key.OidKey? && key in store {
        return ItemAlreadyExists;
      }
      if m.Ids(t) == [] {
        return Failure;
      }
      s := ValidateMandatory(t, attrs);
      if s != Success {
        return;
      }
      s := ValidateConditionals(t, attrs);
      if s != Success {
        return;
      }
      if hasKeys {
        LawfulKeyTypes(m);
        var text := ConstructKey(t, attrs);
        var taken := KeyTaken(text);
        if taken {
          return InvalidParameter;
        }
      }
    }

    method ValidateAttrs(t: ObjectType, sw: Oid, attrs: seq<Attribute>) returns (s: Status, hasKeys: bool)
      requires Typed(m, t, attrs)
      ensures s == AttrsStatus(m, refs, t, sw, attrs, 0)
      ensures s == Success ==> (hasKeys <==> HasKeys(m, t, attrs))
    {
      var seen: set<AttrId>, i := {}, 0;
      hasKeys := false;
      while i < |attrs|
        invariant 0 <= i <= |attrs|
        invariant forall id :: id in seen <==> exists j: nat :: j < i && attrs[j].id == id
        invariant hasKeys <==> exists j: nat :: j < i && IsKey(m, t, attrs[j].id)
        invariant AttrsStatus(m, refs, t, sw, attrs, 0) == AttrsStatus(m, refs, t, sw, attrs, i)
      {
        var a := attrs[i];
        assert a in attrs;
        if !m.Has(t, a.id) {
          return Failure, hasKeys;
        }
        var md := m.Of(t, a.id);
        if a.id in seen {
          return InvalidParameter, hasKeys;
        }
        seen := seen + {a.id};
        if md.readOnly {
          return InvalidParameter, hasKeys;
        }
        if md.key {
          hasKeys := true;
        }
        s := ValidateValue(t, md, sw, a.value, true);
        if s != Success {
          return;
        }
        i := i + 1;
      }
      s := Success;
    }

    method ValidateMandatory(t: ObjectType, attrs: seq<Attribute>) returns (s: Status)
      ensures s == if AllMandatory(m, store, t, attrs) then Success else MandatoryMissing
    {
      var ids, i := m.Ids(t), 0;
      while i < |ids|
        invariant 0 <= i <= |ids|
        invariant forall j: nat :: j < i ==> MandatoryOk(m, store, t, attrs, ids[j])
      {
        if !MandatoryOk(m, store, t, attrs, ids[i]) {
          assert ids[i] in ids;
          return MandatoryMissing;
        }
        i := i + 1;
      }
      s := Success;
    }

    method ValidateConditionals(t: ObjectType, attrs: seq<Attribute>) returns (s: Status)
      requires Lawful(m)
      ensures s == ConditionalsStatus(m, t, attrs, m.Ids(t))
    {
      var ids, i := m.Ids(t), 0;
      assert ids[0..] == ids;
      while i < |ids|
        invariant 0 <= i <= |ids|
        invariant ConditionalsStatus(m, t, attrs, ids) == ConditionalsStatus(m, t, attrs, ids[i..])
      {
        assert ids[i..][0] == ids[i] && ids[i..][1..] == ids[i + 1..];
        assert ids[i] in ids;
        s := ValidateConditional(t, attrs, ids[i]);
        if s != Success {
          return;
        }
        i := i + 1;
      }
      s := Success;
    }

    /** The key text of no object yet created is known by oid, so all entries are compared. */
    method KeyTaken(text: string) returns (taken: bool)
      ensures taken <==> text in keys.Values
    {
      var rest := keys.Keys;
      while rest != {}
        invariant rest <= keys.Keys
        invariant forall k :: k in keys && k !in rest ==> keys[k] != text
        decreases |rest|
      {
        var k :| k in rest;
        if keys[k] == text {
          assert keys[k] in keys.Values;
          return true;
        }
        rest := rest - {k};
      }
      taken := false;
    }

    /** One conditional attribute: required when any of its conditions holds. */
    method ValidateConditional(t: ObjectType, attrs: seq<Attribute>, id: AttrId) returns (s: Status)
      requires m.Has(t, id)
      ensures s == ConditionalStatus(m, t, attrs, id)
    {
      var md := m.Of(t, id);
      if !md.conditional {
        return Success;
      }
      var met, i := false, 0;
      while i < |md.conditions| && !met
        invariant 0 <= i <= |md.conditions|
        invariant met ==> Required(m, t, attrs, md)
        invariant !met ==> forall j: nat :: j < i ==> !ConditionHolds(m, t, attrs, md.conditions[j])
      {
        if ConditionHolds(m, t, attrs, md.conditions[i]) {
          assert md.conditions[i] in md.conditions;
          met := true;
        }
        i := i + 1;
      }
      if !met {
        return if Present(attrs, id) then InvalidParameter else Success;
      }
      s := if Present(attrs, id) then Success else MandatoryMissing;
    }

    // ------------------------------------------------------------- post steps

    /** The reference switch of the post steps; a value type it does not list throws. */
    method IncValue(vt: ValueType, v: Value) returns (s: Status)
      requires NULL_OID !in refs
      requires Counted(refs, Refs(v))
      modifies `refs
      ensures s == if Supported(vt) then Success else Fatal
      ensures s == Success ==> refs == Added(old(refs), multiset(Refs(v)))
    {
      if !Supported(vt) {
        return Fatal;
      }
      s := IncAll(Refs(v));
    }

    method DecValue(vt: ValueType, v: Value) returns (s: Status)
      requires NULL_OID !in refs
      requires Covered(refs, Refs(v))
      modifies `refs
      ensures s == if Supported(vt) then Success else Fatal
      ensures s == Success ==> refs == Subtracted(old(refs), multiset(Refs(v)))
    {
      if !Supported(vt) {
        return Fatal;
      }
      s := DecAll(Refs(v));
    }

    /** Registers the key of a created object; an oid of the wrong type or switch is a
        vendor bug, which is logged and leaves the oid uncounted. */
    method Register(key: MetaKey, sw: Oid) returns (s: Status)
      requires NULL_OID !in refs
      requires Counted(refs, key.Members())
      modifies `refs
      ensures !key.OidKey? ==> s == Success && refs == Added(old(refs), multiset(key.Members()))
      ensures key.OidKey? ==>
                var registers := AnswerOk(m, old(refs), key, sw);
                && s == (if registers && key.oid in old(refs) then Fatal else Success)
                && refs == if registers && s == Success then old(refs)[key.oid := 0] else old(refs)
    {
      if !key.OidKey? {
        s := IncAll(key.Members());
        return;
      }
      s := Success;
      if key.oid == NULL_OID || m.typeOf(key.oid) == NULL_TYPE || m.typeOf(key.oid) != key.objectType {
        return;
      }
      if key.objectType != SWITCH {
        var actual := m.switchOf(key.oid);
        if actual !in refs || sw != actual {
          return;
        }
      }
      s := Insert(key.oid);
    }

    /** `meta_generic_validation_post_create`. Once validation has accepted and the vendor
        answered soundly (`CreateReady`), the only exception left is that of an attribute
        that does not print; it leaves the object with the attributes before that one. */
    method PostCreate(key: MetaKey, sw: Oid, attrs: seq<Attribute>, garbage: bool) returns (s: Status)
      requires KeyTypesLawful(m) && CreateReady(m, State(), key, sw, attrs)
      modifies this
      ensures s == if AllStorable(attrs) then Success else Fatal
      ensures State() == AfterPostCreate(m, old(State()), key, attrs, garbage)
    {
      ghost var db := State();
      s := Fill(key, sw, attrs);
      if s == Success {
        Finish(key, attrs, garbage, db);
      } else {
        Interrupt(key, StoredUpTo(attrs, Stops(attrs, 0)), db);
      }
    }

    /** The create is given up: nothing but history changes any more. */
    ghost method Interrupt(key: MetaKey, a: Attrs, db: Db)
      requires refs == Added(Added(WithEntry(db.refs, key), multiset(key.Members())), AttrBag(a))
      requires store == db.store[key := map[]][key := a] && keys == db.keys
      requires related == db.related && created == db.created && interrupted == db.interrupted
      modifies `interrupted
      ensures State() == Interrupted(db, key, a)
    {
      interrupted := interrupted + {key};
      InterruptAssembles(db, key, a, State());
    }

    /** The new object and as many of its attributes as print. */
    method Fill(key: MetaKey, sw: Oid, attrs: seq<Attribute>) returns (s: Status)
      requires CreateReady(m, State(), key, sw, attrs)
      modifies `store, `refs
      ensures s == if AllStorable(attrs) then Success else Fatal
      ensures s == Success ==> StoredUpTo(attrs, Stops(attrs, 0)) == StoredAttrs(attrs)
      ensures refs == Added(Added(WithEntry(old(refs), key), multiset(key.Members())),
                            AttrBag(StoredUpTo(attrs, Stops(attrs, 0))))
      ensures store == old(store)[key := map[]][key := StoredUpTo(attrs, Stops(attrs, 0))]
    {
      Begin(key, sw, State(), attrs);
      s := StoreAttrs(key, attrs);
    }

    method Finish(key: MetaKey, attrs: seq<Attribute>, garbage: bool, ghost db: Db)
      requires KeyTypesLawful(m) && Typed(m, key.Type(), attrs)
      requires AllKnown(m, key.Type(), attrs)
      requires refs == Added(Added(WithEntry(db.refs, key), multiset(key.Members())), AttrBag(StoredAttrs(attrs)))
      requires store == db.store[key := map[]][key := StoredAttrs(attrs)] && keys == db.keys
      requires related == db.related && created == db.created && interrupted == db.interrupted
      modifies `keys, `created
      ensures State() == AfterCreate(m, db, key, attrs, garbage)
    {
      var hasKeys := RaiseHasKeys(key.Type(), attrs, garbage);
      Index(key, attrs, hasKeys);
      CreateAssembles(db, key, StoredAttrs(attrs), hasKeys, KeyText(m, key.Type(), StoredAttrs(attrs)), State());
    }

    /** The new object is stored without attributes, and its key is registered. */
    method Begin(key: MetaKey, sw: Oid, ghost db: Db, ghost attrs: seq<Attribute>)
      requires db == State() && CreateReady(m, db, key, sw, attrs)
      modifies `store, `refs
      ensures store == db.store[key := map[]]
      ensures refs == Added(WithEntry(db.refs, key), multiset(key.Members()))
      ensures NULL_OID !in refs && refs.Keys >= db.refs.Keys
    {
      var s := CreateObject(key);
      assert s == Success;
      s := Register(key, sw);
      assert s == Success;
      assert key.OidKey? ==> refs == Added(refs, multiset(key.Members()));
    }

    method Index(key: MetaKey, attrs: seq<Attribute>, hasKeys: bool)
      requires KeyTypesLawful(m) && Typed(m, key.Type(), attrs)
      modifies `keys, `created
      ensures keys == if hasKeys then old(keys)[key := KeyText(m, key.Type(), StoredAttrs(attrs))] else old(keys)
      ensures created == old(created) + {key}
    {
      if hasKeys {
        var text := ConstructKey(key.Type(), attrs);
        keys := keys[key := text];
      }
      created := created + {key};
    }

    /** The attribute loop of the post step of create, which ends at an attribute that does
        not print. */
    method StoreAttrs(key: MetaKey, attrs: seq<Attribute>) returns (s: Status)
      requires NULL_OID !in refs && key in store && store[key] == map[] && Distinct(attrs)
      requires AllReady(m, key.Type(), refs.Keys, attrs)
      modifies `refs, `store
      ensures s == if AllStorable(attrs) then Success else Fatal
      ensures s == Success ==> Stops(attrs, 0) == |attrs| && StoredUpTo(attrs, |attrs|) == StoredAttrs(attrs)
      ensures refs == Added(old(refs), AttrBag(StoredUpTo(attrs, Stops(attrs, 0))))
      ensures store == old(store)[key := StoredUpTo(attrs, Stops(attrs, 0))]
    {
      s := Success;
      var i := 0;
      ghost var done := StartStored(attrs, refs, store, key);
      while i < |attrs|
        invariant 0 <= i <= |attrs| && s == Success
        invariant done == StoredUpTo(attrs, i) && MayStopAt(attrs, i)
        invariant refs == Added(old(refs), AttrBag(done))
        invariant store == old(store)[key := done]
      {
        StopsAfter(attrs, i);
        s, done := StoreNext(key, attrs, i, done, old(refs), old(store));
        if s != Success {
          return;
        }
        i := i + 1;
      }
      StopsNever(attrs);
    }

    /** The flag that loop raises. It is not initialised, so it starts from `garbage`. */
    method RaiseHasKeys(t: ObjectType, attrs: seq<Attribute>, garbage: bool) returns (hasKeys: bool)
      requires AllKnown(m, t, attrs)
      ensures hasKeys <==> HasKeys(m, t, attrs) || garbage
    {
      hasKeys := garbage;
      var i := 0;
      while i < |attrs|
        invariant 0 <= i <= |attrs|
        invariant hasKeys <==> garbage || exists j: nat :: j < i && IsKey(m, t, attrs[j].id)
      {
        if m.Of(t, attrs[i].id).key {
          hasKeys := true;
        }
        i := i + 1;
      }
    }

    /** One turn of the loop, from the attributes `done` so far. */
    method StoreNext(key: MetaKey, attrs: seq<Attribute>, i: nat, ghost done: Attrs,
                     ghost refs0: References, ghost store0: Store)
      returns (s: Status, ghost next: Attrs)
      requires i < |attrs| && Distinct(attrs) && done == StoredUpTo(attrs, i)
      requires NULL_OID !in refs0 && refs == Added(refs0, AttrBag(done)) && store == store0[key := done]
      requires AllReady(m, key.Type(), refs0.Keys, attrs)
      modifies `refs, `store
      ensures s == if Storable(attrs[i].value) then Success else Fatal
      ensures next == if s == Success then StoredUpTo(attrs, i + 1) else done
      ensures refs == Added(refs0, AttrBag(next)) && store == store0[key := next]
    {
      assert refs.Keys == refs0.Keys;
      s := StoreOne(key, attrs[i]);
      if s != Success {
        return s, done;
      }
      next := NextStored(attrs, i, done);
      AddedAgain(refs0, AttrBag(done), multiset(Refs(attrs[i].value)));
      Overwrite(store0, key, done, next);
    }

    method StoreOne(key: MetaKey, a: Attribute) returns (s: Status)
      requires NULL_OID !in refs && key in store
      requires ReadyAt(m, key.Type(), refs.Keys, a)
      modifies `refs, `store
      ensures s == if Storable(a.value) then Success else Fatal
      ensures s == Success ==> refs == Added(old(refs), multiset(Refs(a.value)))
      ensures s == Success ==> store == old(store)[key := WithAttr(old(store)[key], a)]
      ensures s == Fatal ==> refs == old(refs) && store == old(store)
    {
      if !Storable(a.value) {
        UnprintedRefs(refs, a.value);
      }
      s := IncValue(m.Of(key.Type(), a.id).valueType, a.value);
      assert s == Success;
      s := SetObject(key, a);
    }

    /** `meta_generic_validation_set` */
    method ValidateSet(key: MetaKey, a: Attribute) returns (s: Status)
      requires Lawful(m) && Typed(m, key.Type(), [a])
      ensures s == SetStatus(m, refs, store, key, a)
    {
      var t := key.Type();
      if !m.Has(t, a.id) {
        return Failure;
      }
      assert a in [a];
      var md := m.Of(t, a.id);
      if md.readOnly {
        return InvalidParameter;
      }
      if md.createOnly {
        return InvalidParameter;
      }
      if md.key {
        return InvalidParameter;
      }
      var sw := NULL_OID;
      if key.OidKey? {
        sw := m.switchOf(key.oid);
        if sw !in refs {
          return InvalidParameter;
        }
      }
      sw := SwitchFor(key, sw);
      s := ValidateValue(t, md, sw, a.value, false);
      if s != Success {
        return;
      }
      if key !in store {
        return InvalidParameter;
      }
      if key.OidKey? && (m.typeOf(key.oid) == NULL_TYPE || m.typeOf(key.oid) != key.objectType) {
        return InvalidParameter;
      }
    }

    /** `meta_generic_validation_post_set`. A value that does not print throws and changes
        nothing. */
    method PostSet(key: MetaKey, a: Attribute) returns (s: Status)
      requires SetReady(m, State(), key, a)
      modifies this
      ensures s == if Storable(a.value) then Success else Fatal
      ensures key in old(store) && State() == if s == Success then AfterSet(old(State()), key, a) else old(State())
    {
      if !Storable(a.value) {
        UnprintedPrevious(m, State(), key, a);
      }
      Release(key, a.id);
      s := StoreOne(key, a);
    }

    /** The references of the attribute's previous value are given back. */
    method Release(key: MetaKey, id: AttrId)
      requires NULL_OID !in refs && key in store && m.Has(key.Type(), id)
      requires Supported(m.Of(key.Type(), id).valueType)
      requires id in store[key] ==> Covered(refs, Refs(store[key][id]))
      modifies `refs
      ensures refs == Subtracted(old(refs), multiset(Previous(State(), key, id)))
    {
      if id in store[key] {
        var s := DecValue(m.Of(key.Type(), id).valueType, store[key][id]);
        assert s == Success;
      } else {
        assert refs == Subtracted(refs, multiset([]));
      }
    }

    /** `meta_is_object_in_default_state`; null makes it throw. */
    method IsInDefaultState(oid: Oid) returns (ok: bool)
      requires oid != NULL_OID
      ensures ok == InDefaultState(m, refs, store, oid)
    {
      if oid !in refs {
        return false;
      }
      var k := KeyOf(m, oid);
      if k !in store {
        return false;
      }
      var rest := store[k].Keys;
      while rest != {}
        invariant rest <= store[k].Keys
        invariant forall id :: id in store[k] && id !in rest ==> DefaultAttr(m, k.objectType, id, store[k][id])
        decreases |rest|
      {
        var id :| id in rest;
        if !DefaultAttr(m, k.objectType, id, store[k][id]) {
          return false;
        }
        rest := rest - {id};
      }
      ok := true;
    }

    /** `meta_port_remove_validation` */
    method ValidatePortRemove(port: Oid) returns (s: Status)
      requires port in refs && refs[port] == 0 && port != NULL_OID
      requires port in related ==> NULL_OID !in related[port]
      ensures s == PortStatus(m, refs, store, related, port)
    {
      if port !in related {
        return Success;
      }
      var ok := IsInDefaultState(port);
      if !ok {
        return Failure;
      }
      ghost var bad := set o | o in related[port] && !RelatedOk(m, refs, store, o);
      var rest := related[port];
      while rest != {}
        invariant rest <= related[port] && bad <= rest
        decreases |rest|
      {
        var oid := NextOid(rest);
        if oid !in refs {
          FirstBad(bad, oid);
          return Fatal;
        }
        ok := IsInDefaultState(oid);
        if refs[oid] != 0 || !ok {
          FirstBad(bad, oid);
          return Failure;
        }
        rest := rest - {oid};
      }
      s := Success;
    }

    /** `meta_generic_validation_remove`, which resets the database for a referenced switch */
    method ValidateRemove(key: MetaKey) returns (s: Status)
      requires RelatedSane(m, related)
      modifies this
      ensures s == RemoveStatus(m, old(State()), key)
      ensures State() == if s == Success && ResetsDb(old(State()), key) then EMPTY else old(State())
    {
      if key !in store {
        return InvalidParameter;
      }
      if !key.OidKey? {
        return Success;
      }
      var oid := key.oid;
      if oid == NULL_OID {
        return InvalidParameter;
      }
      var objectType := m.typeOf(oid);
      if objectType == NULL_TYPE || objectType != key.objectType || oid !in refs {
        return InvalidParameter;
      }
      if refs[oid] != 0 {
        if objectType == SWITCH {
          Init();
          return Success;
        }
        return InvalidParameter;
      }
      if key.objectType == PORT {
        s := ValidatePortRemove(oid);
        return;
      }
      s := Success;
    }

    // ----------------------------------------------------------------- remove

    /** The attribute loop of the post step of remove: every reference is given back. */
    method DropAttrs(t: ObjectType, a: Attrs)
      requires Releasable(m, refs, t, a)
      modifies `refs
      ensures refs == Subtracted(old(refs), AttrBag(a))
    {
      ghost var refs0 := refs;
      var rest := a.Keys;
      DropNone(refs, a);
      while rest != {}
        invariant rest <= a.Keys
        invariant refs == Subtracted(refs0, AttrBag(a - rest))
        decreases |rest|
      {
        var id :| id in rest;
        assert DropOk(m, refs0, t, a, rest, id);
        DropNext(t, a, rest, id, refs0);
        rest := rest - {id};
      }
      NoneLeft(a, rest);
    }

    method DropNext(t: ObjectType, a: Attrs, ghost rest: set<AttrId>, id: AttrId, ghost refs0: References)
      requires id in a && id in rest && NULL_OID !in refs0 && DropOk(m, refs0, t, a, rest, id)
      requires refs == Subtracted(refs0, AttrBag(a - rest))
      modifies `refs
      ensures refs == Subtracted(refs0, AttrBag(a - (rest - {id})))
    {
      var s := DecValue(m.Of(t, id).valueType, a[id]);
      assert s == Success;
      SubtractedAgain(refs0, AttrBag(a - rest), multiset(Refs(a[id])));
    }

    /** The key's own references: members of an entry, or the count of the oid. */
    method DropKey(key: MetaKey)
      requires KeyReleasable(refs, key)
      modifies `refs
      ensures refs == if key.OidKey? then old(refs) - {key.oid}
                      else Subtracted(old(refs), multiset(key.Members()))
    {
      if !key.OidKey? {
        var s := DecAll(key.Members());
        assert s == Success;
      } else {
        var s := RemoveReference(key.oid);
        assert s == Success;
      }
    }

    /** The part of `meta_generic_validation_post_remove` before the port cascade. */
    method RemoveOne(key: MetaKey)
      requires RemoveReady(m, State(), key)
      modifies this
      ensures State() == Erased(old(State()), {key})
    {
      ghost var db := State();
      DropAttrs(key.Type(), store[key]);
      DropKey(key);
      var s := RemoveObject(key);
      assert s == Success;
      if key in keys {
        keys := keys - {key};
      }
      created, interrupted := created - {key}, interrupted - {key};
      EraseAssembles(db, key, State());
    }

    /** `meta_generic_validation_post_remove`: no FATAL exception is raised once validation
        has accepted (`RemoveBecomesReady`). */
    method PostRemove(key: MetaKey)
      requires key.Type() != SWITCH ==> RemoveReady(m, State(), key)
      requires key.Type() == PORT ==> CascadeReady(m, State(), key)
      modifies this
      ensures State() == AfterRemove(m, old(State()), key)
      decreases if key.Type() == PORT then 2 else 0, 0
    {
      ghost var db := State();
      if key.Type() == SWITCH {
        return;
      }
      RemoveOne(key);
      if key.Type() == PORT {
        PostPortRemove(key, db);
      }
    }

    /** `post_port_remove`: every related object goes through the same post step. */
    method PostPortRemove(key: MetaKey, ghost db: Db)
      requires key.OidKey? && key.objectType == PORT
      requires CascadeReady(m, db, key) && State() == Erased(db, {key})
      modifies this
      ensures State() == AfterRemove(m, db, key)
      decreases 1, 0
    {
      if key.oid !in related {
        return;
      }
      PartStart(m, db, key.oid);
      RemoveParts(key.oid, related[key.oid], db);
      PartEnd(m, db, key.oid);
      related := related[key.oid := {}];
    }

    method RemoveParts(port: Oid, all: set<Oid>, ghost db: Db)
      requires State() == Erased(db, PartKeys(m, port, {}))
      requires PartsOk(m, db, port, all)
      modifies this
      ensures State() == Erased(db, PartKeys(m, port, all))
      decreases 0, 2
    {
      var rest := all;
      ghost var done: set<Oid> := {};
      while rest != {}
        invariant rest <= all && done == all - rest
        invariant State() == Erased(db, PartKeys(m, port, done))
        decreases |rest|
      {
        var oid := NextOid(rest);
        RemovePart(port, all, db, done, oid);
        done := done + {oid};
        rest := rest - {oid};
      }
      assert done == all;
    }

    method RemovePart(port: Oid, all: set<Oid>, ghost db: Db, ghost done: set<Oid>, oid: Oid)
      requires PartsOk(m, db, port, all) && done <= all && oid in all && oid !in done
      requires State() == Erased(db, PartKeys(m, port, done))
      modifies this
      ensures State() == Erased(db, PartKeys(m, port, done + {oid}))
      decreases 0, 1
    {
      assert PartOk(m, db, port, done, oid);
      PostRemove(KeyOf(m, oid));
      PartStep(m, db, port, done, oid);
    }

    // -------------------------------------------------------------------- get

    /** `meta_fdb_event_snoop_oid`, and one element of `meta_generic_validation_post_get_objlist` */
    method Snoop(oid: Oid)
      modifies this
      ensures State() == AfterSnoop(m, old(State()), oid)
    {
      if oid == NULL_OID {
        return;
      }
      if oid in refs {
        return;
      }
      var ot := m.typeOf(oid);
      if ot == NULL_TYPE {
        return;
      }
      var s := Insert(oid);
      assert s == Success;
      if OidKey(ot, oid) !in store {
        s := CreateObject(OidKey(ot, oid));
        assert s == Success;
      }
    }

    /** `meta_generic_validation_post_get_objlist`: repeated oids are skipped. */
    method SnoopList(oids: seq<Oid>)
      modifies this
      ensures State() == AfterSnoops(m, old(State()), oids)
    {
      var seen: set<Oid>, i := {}, 0;
      assert oids[0..] == oids;
      while i < |oids|
        invariant 0 <= i <= |oids|
        invariant forall o <- seen :: AfterSnoop(m, State(), o) == State()
        invariant AfterSnoops(m, State(), oids[i..]) == AfterSnoops(m, old(State()), oids)
      {
        assert oids[i..][0] == oids[i] && oids[i..][1..] == oids[i + 1..];
        if oids[i] !in seen {
          ghost var before := State();
          Snoop(oids[i]);
          forall o | o in seen + {oids[i]} ensures AfterSnoop(m, State(), o) == State() {
            SnoopSettles(m, before, oids[i], o);
          }
          seen := seen + {oids[i]};
        }
        i := i + 1;
      }
    }

    /** `meta_generic_validation_get` */
    method ValidateGet(key: MetaKey, query: seq<Attribute>) returns (s: Status)
      requires Typed(m, key.Type(), query)
      ensures s == GetStatus(m, store, key, query)
    {
      if |query| < 1 {
        return InvalidParameter;
      }
      if |query| > MAX_LIST_COUNT {
        return InvalidParameter;
      }
      var i := 0;
      assert query[0..] == query;
      while i < |query|
        invariant 0 <= i <= |query|
        invariant GetAttrsStatus(m, key.Type(), query) == GetAttrsStatus(m, key.Type(), query[i..])
      {
        assert query[i..][0] == query[i] && query[i..][1..] == query[i + 1..];
        assert query[i] in query;
        if !m.Has(key.Type(), query[i].id) {
          return Failure;
        }
        s := GetAttrStatus(m.Of(key.Type(), query[i].id).valueType, query[i].value);
        if s != Success {
          return;
        }
        i := i + 1;
      }
      if key !in store {
        return InvalidParameter;
      }
      if key.OidKey? && (m.typeOf(key.oid) == NULL_TYPE || m.typeOf(key.oid) != key.objectType) {
        return InvalidParameter;
      }
      s := Success;
    }

    /** `meta_generic_validation_post_get` */
    method PostGet(key: MetaKey, results: seq<Attribute>) returns (s: Status)
      requires Answered(m, key.Type(), results)
      requires key.Type() == PORT ==> RelatedAnswer(m, results)
      modifies this
      ensures s == Success && State() == AfterGet(m, old(State()), key, results)
    {
      var i := 0;
      assert results[0..] == results;
      while i < |results|
        invariant 0 <= i <= |results|
        invariant AfterSnoops(m, State(), ResultOids(results[i..]))
               == AfterSnoops(m, old(State()), ResultOids(results))
      {
        assert results[i..][0] == results[i] && results[i..][1..] == results[i + 1..];
        assert GetHandled(m.Of(key.Type(), results[i].id).valueType);
        SnoopsAppend(m, State(), Refs(results[i].value), ResultOids(results[i + 1..]));
        SnoopList(Refs(results[i].value));
        i := i + 1;
      }
      if key.Type() == PORT {
        s := PostPortGet(key.oid, results);
      } else {
        s := Success;
      }
    }

    /** `meta_post_port_get` */
    method PostPortGet(port: Oid, results: seq<Attribute>) returns (s: Status)
      requires RelatedAnswer(m, results)
      modifies `related
      ensures s == Success && related == WithRelated(old(related), port, RelatedOids(results))
    {
      var i := 0;
      assert RelatedOids(results[..0]) == {};
      while i < |results|
        invariant 0 <= i <= |results|
        invariant related == WithRelated(old(related), port, RelatedOids(results[..i]))
      {
        RelatedStep(results, i);
        assert results[i] in results;
        if IsPortRelated(PORT, results[i].id) {
          var list := results[i].value.data.oids;
          s := AddRelated(port, list.Elements());
          assert s == Success;
          WithRelatedTwice(old(related), port, RelatedOids(results[..i]), OidSet(list.Elements()));
        } else {
          assert RelatedOids(results[..i + 1]) == RelatedOids(results[..i]);
        }
        i := i + 1;
      }
      assert results[..i] == results;
      s := Success;
    }

    /** `meta_add_port_to_related_map`; a null oid makes it throw. */
    method AddRelated(port: Oid, list: seq<Oid>) returns (s: Status)
      modifies `related
      ensures s == if NULL_OID in list then Fatal else Success
      ensures s == Success ==> related == WithRelated(old(related), port, OidSet(list))
    {
      var i := 0;
      while i < |list|
        invariant 0 <= i <= |list|
        invariant NULL_OID !in list[..i]
        invariant related == WithRelated(old(related), port, OidSet(list[..i]))
      {
        assert OidSet(list[..i + 1]) == OidSet(list[..i]) + {list[i]};
        assert list[..i + 1] == list[..i] + [list[i]];
        if list[i] == NULL_OID {
          return Fatal;
        }
        WithRelatedTwice(old(related), port, OidSet(list[..i]), {list[i]});
        related := related[port := (if port in related then related[port] else {}) + {list[i]}];
        i := i + 1;
      }
      assert list[..i] == list;
      s := Success;
    }

    // ------------------------------------------------------ fdb notifications

    /** The snooping that precedes every notification. */
    method SnoopNotified(key: MetaKey, attrs: seq<Attribute>)
      requires key.FdbKey? && Typed(m, FDB_ENTRY, attrs)
      modifies this
      ensures State() == AfterSnoops(m, old(State()), [key.bvId] + NotifiedOids(m, attrs))
    {
      SnoopsAppend(m, State(), [key.bvId], NotifiedOids(m, attrs));
      SnoopsOne(m, State(), key.bvId);
      Snoop(key.bvId);
      ghost var db := State();
      var i := 0;
      assert attrs[0..] == attrs;
      while i < |attrs|
        invariant 0 <= i <= |attrs|
        invariant AfterSnoops(m, State(), NotifiedOids(m, attrs[i..])) == AfterSnoops(m, db, NotifiedOids(m, attrs))
      {
        SnoopAttr(attrs, i);
        i := i + 1;
      }
    }

    method SnoopAttr(attrs: seq<Attribute>, i: nat)
      requires i < |attrs| && Typed(m, FDB_ENTRY, attrs)
      modifies this
      ensures AfterSnoops(m, State(), NotifiedOids(m, attrs[i + 1..]))
           == AfterSnoops(m, old(State()), NotifiedOids(m, attrs[i..]))
    {
      assert attrs[i..][0] == attrs[i] && attrs[i..][1..] == attrs[i + 1..];
      assert attrs[i] in attrs;
      if m.Has(FDB_ENTRY, attrs[i].id) && m.Of(FDB_ENTRY, attrs[i].id).valueType == PlainT(OidT) {
        SnoopsAppend(m, State(), DataRefs(attrs[i].value.data), NotifiedOids(m, attrs[i + 1..]));
        SnoopsOne(m, State(), attrs[i].value.data.oid);
        Snoop(attrs[i].value.data.oid);
      } else {
        assert [] + NotifiedOids(m, attrs[i + 1..]) == NotifiedOids(m, attrs[i + 1..]);
      }
    }

    /** `meta_sai_on_fdb_flush_event_consolidated`: the matching entries are collected first,
        since removing them changes the map that is scanned. */
    method FlushConsolidated(bvId: Oid, attrs: seq<Attribute>)
      requires Valid() && Find(attrs, FDB_TYPE).Some?
      modifies this
      ensures State() == Erased(old(State()), Flushable(old(store), bvId, attrs))
    {
      ghost var db := State();
      EntriesTyped(m, db);
      var toRemove := CollectFlushed(bvId, attrs);
      FlushesReady(m, db, bvId, attrs, toRemove);
      RemoveAll(toRemove);
    }

    method RemoveAll(toRemove: seq<MetaKey>)
      requires FlushesOk(m, State(), toRemove)
      modifies this
      ensures State() == Erased(old(State()), KeySet(toRemove))
    {
      ghost var db := State();
      FlushStarts(db, toRemove);
      var i := 0;
      while i < |toRemove|
        invariant 0 <= i <= |toRemove|
        invariant State() == FlushedUpTo(db, toRemove, i)
      {
        RemoveFlushed(toRemove, i, db);
        i := i + 1;
      }
      FlushEnds(db, toRemove);
    }

    method RemoveFlushed(toRemove: seq<MetaKey>, i: nat, ghost db: Db)
      requires i < |toRemove| && FlushesOk(m, db, toRemove)
      requires State() == FlushedUpTo(db, toRemove, i)
      modifies this
      ensures State() == FlushedUpTo(db, toRemove, i + 1)
    {
      assert FlushOk(m, db, toRemove, i);
      PostRemove(toRemove[i]);
    }

    method CollectFlushed(bvId: Oid, attrs: seq<Attribute>) returns (toRemove: seq<MetaKey>)
      requires Find(attrs, FDB_TYPE).Some?
      requires forall k <- store :: k.FdbKey? ==> FDB_TYPE in store[k]
      ensures KeySet(toRemove) == Flushable(store, bvId, attrs)
      ensures NoRepeats(toRemove)
    {
      toRemove := [];
      var rest := store.Keys;
      while rest != {}
        invariant rest <= store.Keys && KeySet(toRemove) !! rest
        invariant KeySet(toRemove) == Flushable(store, bvId, attrs) - rest
        invariant NoRepeats(toRemove)
        decreases |rest|
      {
        var k :| k in rest;
        var matches := MatchesFlush(bvId, attrs, k);
        CollectStep(store, bvId, attrs, rest, k);
        rest := rest - {k};
        if matches {
          ExtendKeys(toRemove, k);
          toRemove := toRemove + [k];
        }
      }
    }

    /** One key of the scan. `at(TYPE)` would throw on an entry without the attribute; every
        stored entry has it. */
    method MatchesFlush(bvId: Oid, attrs: seq<Attribute>, k: MetaKey) returns (matches: bool)
      requires Find(attrs, FDB_TYPE).Some? && k in store
      requires k.FdbKey? ==> FDB_TYPE in store[k]
      ensures matches == FlushMatches(store, bvId, attrs, k)
    {
      if !k.FdbKey? {
        return false;
      }
      var entryType, port := Find(attrs, FDB_TYPE), Find(attrs, FDB_BRIDGE_PORT);
      if store[k][FDB_TYPE].data != entryType.value.data {
        return false;
      }
      if port.Some? && port.value.data != OidV(NULL_OID) {
        if FDB_BRIDGE_PORT !in store[k] {
          return false;
        }
        if store[k][FDB_BRIDGE_PORT].data != port.value.data {
          return false;
        }
      }
      if bvId != NULL_OID {
        if bvId != k.bvId {
          return false;
        }
      }
      matches := true;
    }

    /** `meta_sai_on_fdb_event_single` */
    method OnFdbEvent(key: MetaKey, kind: FdbKind, attrs: seq<Attribute>, garbage: bool) returns (s: Status)
      requires Valid() && WellFormed(m, Notify(key, kind, attrs, garbage))
      requires Admissible(m, State(), Notify(key, kind, attrs, garbage))
      modifies this
      ensures Valid() && State() == Apply(m, old(State()), Notify(key, kind, attrs, garbage))
      ensures s == NoticeStatus(m, AfterSnoops(m, old(State()), [key.bvId] + NotifiedOids(m, attrs)), key, kind, attrs)
    {
      ApplyPreserves(m, State(), Notify(key, kind, attrs, garbage));
      SnoopsPreserve(m, State(), [key.bvId] + NotifiedOids(m, attrs));
      SnoopNotified(key, attrs);
      s := Dispatch(key, kind, attrs, garbage);
    }

    method Dispatch(key: MetaKey, kind: FdbKind, attrs: seq<Attribute>, garbage: bool) returns (s: Status)
      requires Valid() && key.FdbKey? && Typed(m, FDB_ENTRY, attrs) && Typed(m, FDB_ENTRY, Completed(attrs))
      requires kind.Flushed? && key.mac == ZERO_MAC ==> Find(attrs, FDB_TYPE).Some?
      modifies this
      ensures State() == AfterNotice(m, old(State()), key, kind, attrs, garbage)
      ensures s == NoticeStatus(m, old(State()), key, kind, attrs)
    {
      s := Success;
      match kind
      case Learned =>
        if key !in store {
          s := Learn(key, Completed(attrs), garbage);
        }
      case Aged =>
        if key in store {
          RemoveEntry(key);
        }
      case Flushed =>
        if key.mac == ZERO_MAC {
          FlushConsolidated(key.bvId, attrs);
        } else if key in store {
          RemoveEntry(key);
        }
      case Move =>
        if key in store {
          s := MoveEntry(key, attrs);
        }
    }

    method Learn(key: MetaKey, attrs: seq<Attribute>, garbage: bool) returns (s: Status)
      requires Valid() && key.FdbKey? && Typed(m, FDB_ENTRY, attrs)
      modifies this
      ensures s == CreateStatus(m, old(State()), key, key.switchId, attrs)
      ensures State() == if s == Success then AfterCreate(m, old(State()), key, attrs, garbage) else old(State())
    {
      s := ValidateCreate(key, key.switchId, attrs);
      if s == Success {
        CreateBecomesReady(m, State(), key, key.switchId, attrs);
        FdbCreatePrints(m, State(), key, attrs);
        LawfulKeyTypes(m);
        s := PostCreate(key, key.switchId, attrs, garbage);
      }
    }

    method RemoveEntry(key: MetaKey)
      requires Valid() && key.FdbKey? && key in store
      modifies this
      ensures State() == Erased(old(State()), {key})
    {
      RemoveBecomesReady(m, State(), key);
      PostRemove(key);
    }

    method MoveEntry(key: MetaKey, attrs: seq<Attribute>) returns (s: Status)
      requires Valid() && key.FdbKey? && key in store && Typed(m, FDB_ENTRY, attrs)
      modifies this
      ensures State() == AfterMove(m, old(State()), key, attrs)
      ensures s == if MoveThrows(m, old(State()), key, attrs) then Fatal else Success
    {
      var i := 0;
      assert attrs[0..] == attrs;
      ghost var db := State();
      while i < |attrs|
        invariant 0 <= i <= |attrs| && Valid() && Typed(m, FDB_ENTRY, attrs[i..])
        invariant refs.Keys == db.refs.Keys && store.Keys == db.store.Keys
        invariant AfterMove(m, State(), key, attrs[i..]) == AfterMove(m, db, key, attrs)
        invariant !MoveThrowsBefore(m, db, key, attrs, i)
      {
        s := MoveNext(key, attrs, i, db);
        if s == Fatal {
          return;
        }
        i := i + 1;
      }
      s := Success;
    }

    /** One attribute of a move, which may throw. */
    method MoveNext(key: MetaKey, attrs: seq<Attribute>, i: nat, ghost db: Db) returns (s: Status)
      requires Valid() && key.FdbKey? && key in store && i < |attrs|
      requires Typed(m, FDB_ENTRY, attrs) && Typed(m, FDB_ENTRY, attrs[i..])
      requires refs.Keys == db.refs.Keys && store.Keys == db.store.Keys
      modifies this
      ensures Valid() && Typed(m, FDB_ENTRY, attrs[i + 1..])
      ensures s == StatusOf(m, db, key, attrs, i)
      ensures refs.Keys == db.refs.Keys && store.Keys == db.store.Keys
      ensures if s == Fatal then State() == AfterMove(m, old(State()), key, attrs[i..])
              else AfterMove(m, State(), key, attrs[i + 1..]) == AfterMove(m, old(State()), key, attrs[i..])
    {
      TypedSplit(m, FDB_ENTRY, attrs[i..]);
      OneTyped(m, FDB_ENTRY, attrs, i);
      assert attrs[i..][0] == attrs[i] && attrs[i..][1..] == attrs[i + 1..];
      SetStatusSame(m, db, State(), key, attrs[i]);
      StepKeepsRest(m, State(), key, attrs[i], key);
      s := SetValidated(key, attrs[i]);
    }

    /** Validation of set followed by its post step. */
    method SetValidated(key: MetaKey, a: Attribute) returns (s: Status)
      requires Valid() && key.FdbKey? && Typed(m, key.Type(), [a])
      modifies this
      ensures Valid() && State() == AfterMoveStep(m, old(State()), key, a)
      ensures s == SetStatus(m, old(refs), old(store), key, a)
    {
      s := ValidateSet(key, a);
      if s == Success {
        SetBecomesReady(m, State(), key, a);
        SetPreserves(m, State(), key, a);
        FdbSetPrints(m, State(), key, a);
        s := PostSet(key, a);
      }
    }

    // -------------------------------------------------------------------- API

    /** `meta_sai_create_*`: the key's oid is the one the vendor returns. */
    method Create(key: MetaKey, sw: Oid, attrs: seq<Attribute>, vendorOk: bool, garbage: bool) returns (s: Status)
      requires Valid() && WellFormed(m, MetaRuns.Create(key, sw, attrs, vendorOk, garbage))
      requires Admissible(m, State(), MetaRuns.Create(key, sw, attrs, vendorOk, garbage))
      modifies this
      ensures Valid() && State() == Apply(m, old(State()), MetaRuns.Create(key, sw, attrs, vendorOk, garbage))
      ensures s == CreateAnswered(m, old(State()), key, sw, attrs, vendorOk)
      ensures s == Success <==> CreateAccepted(m, old(State()), key, sw, attrs) && vendorOk && AllStorable(attrs)
      ensures s == Success ==> key in store && StoresAll(store[key], attrs)
      ensures s != Success ==> State() == old(State()) || (s == Fatal && key in interrupted)
    {
      ApplyPreserves(m, State(), MetaRuns.Create(key, sw, attrs, vendorOk, garbage));
      s := EntryStatus(m, store, key, CreateCall);
      if s != Success {
        return;
      }
      s := ValidateCreate(key, sw, attrs);
      if s != Success {
        return;
      }
      if !vendorOk {
        return Failure;
      }
      CreateBecomesReady(m, State(), key, sw, attrs);
      LawfulKeyTypes(m);
      AcceptedStores(m, State(), key, sw, attrs, garbage);
      s := PostCreate(key, sw, attrs, garbage);
    }

    /** `meta_sai_set_*` */
    method Set(key: MetaKey, a: Attribute, vendorOk: bool) returns (s: Status)
      requires Valid() && WellFormed(m, MetaRuns.Set(key, a, vendorOk))
      modifies this
      ensures Valid() && State() == Apply(m, old(State()), MetaRuns.Set(key, a, vendorOk))
      ensures s == SetAnswered(m, old(State()), key, a, vendorOk)
      ensures s == Success <==>
                && EntryStatus(m, old(store), key, OtherCall) == Success
                && SetStatus(m, old(refs), old(store), key, a) == Success && vendorOk && Storable(a.value)
      ensures s == Success ==> key in store && a.id in store[key] && store[key][a.id] == Canon(a.value)
      ensures s != Success ==> State() == old(State())
    {
      s := EntryStatus(m, store, key, OtherCall);
      if s != Success {
        return;
      }
      s := ValidateSet(key, a);
      if s != Success {
        return;
      }
      if !vendorOk {
        return Failure;
      }
      SetBecomesReady(m, State(), key, a);
      SetPreserves(m, State(), key, a);
      s := PostSet(key, a);
    }

    /** `meta_sai_remove_*` */
    method Remove(key: MetaKey, vendorOk: bool) returns (s: Status)
      requires Valid()
      modifies this
      ensures Valid() && State() == Apply(m, old(State()), MetaRuns.Remove(key, vendorOk))
      ensures s == RemoveAnswered(m, old(State()), key, vendorOk)
      ensures s == Success <==>
                && EntryStatus(m, old(store), key, OtherCall) == Success
                && RemoveStatus(m, old(State()), key) == Success && vendorOk
      ensures s == Success && key.Type() != SWITCH ==> key !in store && (key.OidKey? ==> key.oid !in refs)
      ensures s != Success ==> State() == old(State()) || (ResetsDb(old(State()), key) && State() == EMPTY)
    {
      ghost var db := State();
      ApplyPreserves(m, db, MetaRuns.Remove(key, vendorOk));
      s := EntryStatus(m, store, key, OtherCall);
      if s != Success {
        return;
      }
      s := ValidateRemove(key);
      if s != Success {
        return;
      }
      if !vendorOk {
        return Failure;
      }
      if key.Type() != SWITCH {
        RemoveBecomesReady(m, db, key);
        RemoveTakes(m, db, key);
      }
      PostRemove(key);
    }

    /** `meta_sai_get_*` */
    method Get(key: MetaKey, query: seq<Attribute>, answer: Option<seq<Attribute>>) returns (s: Status)
      requires Valid() && WellFormed(m, MetaRuns.Get(key, query, answer))
      requires Admissible(m, State(), MetaRuns.Get(key, query, answer))
      modifies this
      ensures Valid() && State() == Apply(m, old(State()), MetaRuns.Get(key, query, answer))
      ensures s == GetAnswered(m, old(State()), key, query, answer)
      ensures s == Success <==>
                && EntryStatus(m, old(store), key, GetCall) == Success
                && GetStatus(m, old(store), key, query) == Success && answer.Some?
      ensures s != Success ==> State() == old(State())
    {
      ApplyPreserves(m, State(), MetaRuns.Get(key, query, answer));
      s := EntryStatus(m, store, key, GetCall);
      if s != Success {
        return;
      }
      s := ValidateGet(key, query);
      if s != Success {
        return;
      }
      if answer.None? {
        return Failure;
      }
      QueryAnswered(m, key.Type(), query, answer.value);
      s := PostGet(key, answer.value);
    }
  }

  /** The lanes of a port key: numbers separated by commas. */
  method JoinNumbers(numbers: seq<int>) returns (s: string)
    ensures s == Joined(numbers)
  {
    s := "";
    var i := 0;
    while i < |numbers|
      invariant 0 <= i <= |numbers|
      invariant s == if 0 < i < |numbers| then Joined(numbers[..i]) + "," else Joined(numbers[..i])
    {
      assert numbers[..i + 1][..i] == numbers[..i];
      s := s + NumberText.Decimal(numbers[i]);
      if i != |numbers| - 1 {
        s := s + ",";
      }
      i := i + 1;
    }
    assert numbers[..i] == numbers;
  }

  method JoinInOrder(parts: map<AttrId, string>) returns (key: string)
    ensures key == JoinParts(parts)
  {
    key := "";
    var rest := parts;
    while rest != map[]
      invariant JoinParts(parts) == key + JoinParts(rest)
      decreases |rest|
    {
      assert IsMin(rest.Keys, Min(rest.Keys));
      var id :| id in rest && forall j <- rest :: id <= j;
      assert id == Min(rest.Keys);
      assert JoinParts(rest) == rest[id] + ";" + JoinParts(rest - {id});
      assert key + JoinParts(rest) == (key + rest[id] + ";") + JoinParts(rest - {id});
      key := key + rest[id] + ";";
      rest := rest - {id};
    }
    assert JoinParts(rest) == "";
  }

  /** `std::set` is visited in ascending order. */
  method NextOid(oids: set<Oid>) returns (oid: Oid)
    requires oids != {}
    ensures oid in oids && forall o <- oids :: oid <= o
  {
    oid :| oid in oids;
    var rest := oids - {oid};
    while rest != {}
      invariant oid in oids && rest <= oids
      invariant forall o :: o in oids && o !in rest ==> oid <= o
      decreases |rest|
    {
      var o :| o in rest;
      if o < oid {
        oid := o;
      }
      rest := rest - {o};
    }
  }
}
