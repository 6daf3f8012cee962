/** The assignment that stores an attribute (sai_meta.cpp:531) evaluates its two sides in
    an order C++11 leaves to the compiler. If the map slot is made first and the copy then
    throws, the slot stays with a null pointer. Here both orders are run beside the model:
    they store the same attributes, and the null slots are told exactly. */
module NullSlots {
  import opened Sai
  import opened Stored
  import opened MetaState
  import opened RefBags
  import opened MetaInvariant
  import opened MetaSteps
  import opened MetaRuns
  import opened MetaReady
  import MetaFindings

  datatype Order = CopyFirst | SlotFirst

  /** The attribute map of one object as the program keeps it; None is a null pointer. */
  type Slots = map<AttrId, Option<Value>>

  /** The assignment; false is the exception of the copy. */
  function Assign(order: Order, slots: Slots, a: Attribute): (Slots, bool) {
    var made := if order.SlotFirst? && a.id !in slots then slots[a.id := None] else slots;
    if Storable(a.value) then (made[a.id := Some(Canon(a.value))], true) else (made, false)
  }

  /** The attribute loop of create, from an object without attributes */
  function AssignUpTo(order: Order, attrs: seq<Attribute>, n: nat): (Slots, bool)
    requires n <= |attrs|
  {
    if n == 0 then (map[], true)
    else
      var r := AssignUpTo(order, attrs, n - 1);
      if r.1 then Assign(order, r.0, attrs[n - 1]) else r
  }

  function Present(slots: Slots): Attrs { map id | id in slots && slots[id].Some? :: slots[id].value }

  function Nulls(slots: Slots): set<AttrId> { set id | id in slots && slots[id].None? }

  function Filled(a: Attrs): Slots { map id | id in a :: Some(a[id]) }

  lemma FilledPresent(a: Attrs)
    ensures Present(Filled(a)) == a && Nulls(Filled(a)) == {}
  {
  }

  /** Both orders store what `MetaDb.SetObject` says; they differ in the null slot an
      exception leaves under an attribute the object did not have. */
  lemma AssignStores(order: Order, slots: Slots, a: Attribute)
    ensures var r := Assign(order, slots, a);
            && r.1 == Storable(a.value)
            && Present(r.0) == (if r.1 then WithAttr(Present(slots), a) else Present(slots))
            && Nulls(r.0) == if r.1 then Nulls(slots) - {a.id}
                             else if order.SlotFirst? && a.id !in Present(slots) then Nulls(slots) + {a.id}
                             else Nulls(slots)
  {
  }

  /** The loop stores the attributes before the one that throws, in both orders. */
  lemma {:induction false} LoopStores(order: Order, attrs: seq<Attribute>, n: nat)
    requires Distinct(attrs) && n <= |attrs|
    ensures var stop, r := Stops(attrs, 0), AssignUpTo(order, attrs, n);
            && r.1 == (n <= stop)
            && Present(r.0) == StoredUpTo(attrs, if n <= stop then n else stop)
            && Nulls(r.0) == if stop < n && order.SlotFirst? then {attrs[stop].id} else {}
  {
    if n == 0 {
      assert attrs[..0] == [];
    } else {
      LoopStores(order, attrs, n - 1);
      StopsFirst(attrs, 0);
      if n - 1 <= Stops(attrs, 0) {
        LoopStep(order, attrs, n - 1);
      }
    }
  }

  lemma LoopStep(order: Order, attrs: seq<Attribute>, i: nat)
    requires Distinct(attrs) && i < |attrs| && AssignUpTo(order, attrs, i).1
    requires Present(AssignUpTo(order, attrs, i).0) == StoredUpTo(attrs, i)
    requires Nulls(AssignUpTo(order, attrs, i).0) == {}
    ensures var a, r := attrs[i], AssignUpTo(order, attrs, i + 1);
            && r.1 == Storable(a.value)
            && Present(r.0) == StoredUpTo(attrs, if r.1 then i + 1 else i)
            && Nulls(r.0) == if !r.1 && order.SlotFirst? then {a.id} else {}
  {
    AssignStores(order, AssignUpTo(order, attrs, i).0, attrs[i]);
    StoreStep(attrs, i);
    StoredIds(attrs[..i]);
  }

  /** The attributes before the stop print, and the one at it does not. */
  lemma {:induction false} StopsFirst(attrs: seq<Attribute>, i: nat)
    requires i <= |attrs|
    ensures forall j :: i <= j < Stops(attrs, i) ==> Storable(attrs[j].value)
    ensures Stops(attrs, i) < |attrs| ==> !Storable(attrs[Stops(attrs, i)].value)
    decreases |attrs| - i
  {
    if i < |attrs| && Storable(attrs[i].value) {
      StopsFirst(attrs, i + 1);
    }
  }

  // ------------------------------------------------------------------ whole runs

  type RawStore = map<MetaKey, Slots>

  ghost predicate CreateDone(m: Meta, db: Db, e: Event)
    requires WellFormed(m, e)
  {
    e.Create? && e.vendorOk && CreateAccepted(m, db, e.key, e.sw, e.attrs)
  }

  /** A set reaches its assignment. */
  ghost predicate SetDone(m: Meta, db: Db, e: Event)
    requires WellFormed(m, e)
  {
    && e.Set? && e.vendorOk && EntryStatus(m, db.store, e.key, OtherCall) == Success
    && SetStatus(m, db.refs, db.store, e.key, e.attr) == Success && e.key in db.store
  }

  /** The attribute maps after an event. Create and set assign; the other calls add objects
      without attributes and erase whole objects, and a notification also assigns to fdb
      entries, whose attributes print. */
  ghost function RawAfter(order: Order, m: Meta, db: Db, raw: RawStore, e: Event): RawStore
    requires WellFormed(m, e)
  {
    if CreateDone(m, db, e) then raw[e.key := AssignUpTo(order, e.attrs, |e.attrs|).0]
    else if SetDone(m, db, e) && e.key in raw then raw[e.key := Assign(order, raw[e.key], e.attr).0]
    else
      var store := Apply(m, db, e).store;
      map k | k in store :: if k in raw && !k.FdbKey? then raw[k] else Filled(store[k])
  }

  /** The attributes of an object are the model's, and an fdb entry has no null slot. */
  ghost predicate AgreeAt(k: MetaKey, a: Attrs, slots: Slots) {
    Present(slots) == a && (k.FdbKey? ==> Nulls(slots) == {})
  }

  ghost predicate Agree(db: Db, raw: RawStore) {
    raw.Keys == db.store.Keys && forall k <- raw :: AgreeAt(k, db.store[k], raw[k])
  }

  lemma AgreeUpdate(db: Db, raw: RawStore, store: Store, k: MetaKey, a: Attrs, slots: Slots)
    requires Agree(db, raw) && AgreeAt(k, a, slots) && store == db.store[k := a]
    ensures Agree(db.(store := store), raw[k := slots])
  {
    forall j | j in raw[k := slots] ensures AgreeAt(j, store[j], raw[k := slots][j]) {
      if j != k {
        assert AgreeAt(j, db.store[j], raw[j]);
      }
    }
  }

  lemma AgreeStores(db: Db, db': Db, raw: RawStore)
    requires Agree(db, raw) && db'.store == db.store
    ensures Agree(db', raw)
  {
  }

  lemma CreatedSlots(order: Order, m: Meta, db: Db, e: Event)
    requires Lawful(m) && WellFormed(m, e) && CreateDone(m, db, e)
    ensures var n, slots := Stops(e.attrs, 0), AssignUpTo(order, e.attrs, |e.attrs|).0;
            && AgreeAt(e.key, StoredUpTo(e.attrs, n), slots)
            && Nulls(slots) == if n < |e.attrs| && order.SlotFirst? then {e.attrs[n].id} else {}
  {
    CreateStops(m, db, e);
    LoopStores(order, e.attrs, |e.attrs|);
  }

  lemma CreateStops(m: Meta, db: Db, e: Event)
    requires Lawful(m) && WellFormed(m, e) && CreateDone(m, db, e)
    ensures Distinct(e.attrs) && (e.key.FdbKey? ==> Stops(e.attrs, 0) == |e.attrs|)
  {
    MetaFindings.AcceptedDistinct(m, db, e.key, e.sw, e.attrs);
    if e.key.FdbKey? {
      FdbCreatePrints(m, db, e.key, e.attrs);
      StopsAtEnd(e.attrs);
    }
  }

  lemma CreateAgrees(order: Order, m: Meta, db: Db, raw: RawStore, e: Event)
    requires Lawful(m) && WellFormed(m, e) && Agree(db, raw) && CreateDone(m, db, e)
    ensures Agree(Apply(m, db, e), RawAfter(order, m, db, raw, e))
  {
    var a, slots := StoredUpTo(e.attrs, Stops(e.attrs, 0)), AssignUpTo(order, e.attrs, |e.attrs|).0;
    CreatedSlots(order, m, db, e);
    CreatedStore(m, db, e);
    AgreeUpdate(db, raw, db.store[e.key := a], e.key, a, slots);
    AgreeStores(db.(store := db.store[e.key := a]), Apply(m, db, e), raw[e.key := slots]);
  }

  lemma CreatedStore(m: Meta, db: Db, e: Event)
    requires WellFormed(m, e) && CreateDone(m, db, e)
    ensures Apply(m, db, e).store == db.store[e.key := StoredUpTo(e.attrs, Stops(e.attrs, 0))]
  {
    StopsAtEnd(e.attrs);
    PostCreateStore(m, db, e.key, e.attrs, e.garbage);
  }

  lemma StopsAtEnd(attrs: seq<Attribute>)
    ensures AllStorable(attrs) ==> Stops(attrs, 0) == |attrs|
  {
    StopsFirst(attrs, 0);
  }

  lemma PostCreateStore(m: Meta, db: Db, key: MetaKey, attrs: seq<Attribute>, garbage: bool)
    requires AllStorable(attrs) ==> Stops(attrs, 0) == |attrs|
    ensures AfterPostCreate(m, db, key, attrs, garbage).store == db.store[key := StoredUpTo(attrs, Stops(attrs, 0))]
  {
    if AllStorable(attrs) {
      StoredUpToAll(attrs);
      CreatedWithStore(db, key, StoredAttrs(attrs), HasKeys(m, key.Type(), attrs) || garbage,
                       KeyText(m, key.Type(), StoredAttrs(attrs)));
    } else {
      InterruptedStore(db, key, StoredUpTo(attrs, Stops(attrs, 0)));
    }
  }

  lemma CreatedWithStore(db: Db, key: MetaKey, a: Attrs, indexed: bool, text: string)
    ensures CreatedWith(db, key, a, indexed, text).store == db.store[key := a]
  {
  }

  lemma InterruptedStore(db: Db, key: MetaKey, a: Attrs)
    ensures Interrupted(db, key, a).store == db.store[key := a]
  {
  }

  lemma SetSlots(order: Order, m: Meta, db: Db, raw: RawStore, e: Event)
    requires Lawful(m) && WellFormed(m, e) && Agree(db, raw) && SetDone(m, db, e)
    ensures var slots, v := Assign(order, raw[e.key], e.attr).0, e.attr.value;
            && AgreeAt(e.key, if Storable(v) then WithAttr(db.store[e.key], e.attr) else db.store[e.key], slots)
            && Nulls(slots) == if Storable(v) then Nulls(raw[e.key]) - {e.attr.id}
                               else if order.SlotFirst? && e.attr.id !in db.store[e.key]
                               then Nulls(raw[e.key]) + {e.attr.id}
                               else Nulls(raw[e.key])
  {
    assert AgreeAt(e.key, db.store[e.key], raw[e.key]);
    AssignStores(order, raw[e.key], e.attr);
    if e.key.FdbKey? {
      FdbSetPrints(m, db, e.key, e.attr);
    }
  }

  lemma SetStore(m: Meta, db: Db, e: Event)
    requires WellFormed(m, e) && SetDone(m, db, e)
    ensures Apply(m, db, e).store
         == db.store[e.key := if Storable(e.attr.value) then WithAttr(db.store[e.key], e.attr) else db.store[e.key]]
  {
    if Storable(e.attr.value) {
      assert Apply(m, db, e) == AfterSet(db, e.key, e.attr);
    } else {
      assert Apply(m, db, e) == db;
      assert db.store[e.key := db.store[e.key]] == db.store;
    }
  }

  lemma SetAgrees(order: Order, m: Meta, db: Db, raw: RawStore, e: Event)
    requires Lawful(m) && WellFormed(m, e) && Agree(db, raw) && SetDone(m, db, e)
    ensures Agree(Apply(m, db, e), RawAfter(order, m, db, raw, e))
  {
    var a := if Storable(e.attr.value) then WithAttr(db.store[e.key], e.attr) else db.store[e.key];
    var slots := Assign(order, raw[e.key], e.attr).0;
    SetSlots(order, m, db, raw, e);
    SetStore(m, db, e);
    AgreeUpdate(db, raw, db.store[e.key := a], e.key, a, slots);
    AgreeStores(db.(store := db.store[e.key := a]), Apply(m, db, e), raw[e.key := slots]);
  }

  /** Calls that assign nothing leave the attributes of every object that stays. */
  lemma OthersKept(m: Meta, db: Db, e: Event, k: MetaKey)
    requires WellFormed(m, e) && !CreateDone(m, db, e) && !SetDone(m, db, e)
    requires k in db.store && !k.FdbKey? && k in Apply(m, db, e).store
    ensures Apply(m, db, e).store[k] == db.store[k]
  {
    match e
    case Create(_, _, _, _, _) =>
    case Set(_, _, _) =>
    case Remove(key, _) => RemoveKeeps(m, db, key, k);
    case Get(key, _, answer) =>
      if answer.Some? { SnoopsKeep(m, db, ResultOids(answer.value), k); }
    case Notify(key, kind, attrs, garbage) =>
      var oids := [key.bvId] + NotifiedOids(m, attrs);
      SnoopsKeep(m, db, oids, k);
      NoticeKeeps(m, AfterSnoops(m, db, oids), key, kind, attrs, garbage, k);
  }

  lemma RemoveKeeps(m: Meta, db: Db, key: MetaKey, k: MetaKey)
    requires k in db.store
    ensures k in AfterRemove(m, db, key).store ==> AfterRemove(m, db, key).store[k] == db.store[k]
  {
  }

  lemma {:induction false} SnoopsKeep(m: Meta, db: Db, oids: seq<Oid>, k: MetaKey)
    requires k in db.store
    ensures k in AfterSnoops(m, db, oids).store && AfterSnoops(m, db, oids).store[k] == db.store[k]
    decreases |oids|
  {
    if oids != [] {
      SnoopsKeep(m, AfterSnoop(m, db, oids[0]), oids[1..], k);
    }
  }

  lemma {:induction false} MoveKeeps(m: Meta, db: Db, key: MetaKey, attrs: seq<Attribute>, k: MetaKey)
    requires Typed(m, key.Type(), attrs) && k in db.store && k != key
    ensures k in AfterMove(m, db, key, attrs).store && AfterMove(m, db, key, attrs).store[k] == db.store[k]
    decreases |attrs|
  {
    if attrs != [] {
      TypedSplit(m, key.Type(), attrs);
      if SetStatus(m, db.refs, db.store, key, attrs[0]) != Fatal {
        MoveKeeps(m, AfterMoveStep(m, db, key, attrs[0]), key, attrs[1..], k);
      }
    }
  }

  /** A notification leaves every object but fdb entries. */
  lemma NoticeKeeps(m: Meta, db: Db, key: MetaKey, kind: FdbKind, attrs: seq<Attribute>, garbage: bool, k: MetaKey)
    requires key.FdbKey? && Typed(m, FDB_ENTRY, attrs) && Typed(m, FDB_ENTRY, Completed(attrs))
    requires k in db.store && !k.FdbKey?
    ensures k in AfterNotice(m, db, key, kind, attrs, garbage).store
            && AfterNotice(m, db, key, kind, attrs, garbage).store[k] == db.store[k]
  {
    match kind
    case Learned => LearnKeeps(m, db, key, Completed(attrs), garbage, k);
    case Move => MoveKeeps(m, db, key, attrs, k);
    case Aged => ErasedKeeps(db, {key}, k);
    case Flushed =>
      if key.mac == ZERO_MAC {
        FlushKeeps(m, db, key, attrs, garbage, k);
      } else {
        ErasedKeeps(db, {key}, k);
      }
  }

  lemma LearnKeeps(m: Meta, db: Db, key: MetaKey, attrs: seq<Attribute>, garbage: bool, k: MetaKey)
    requires k in db.store && k != key
    ensures var store := AfterCreate(m, db, key, attrs, garbage).store; k in store && store[k] == db.store[k]
  {
    CreatedWithStore(db, key, StoredAttrs(attrs), HasKeys(m, key.Type(), attrs) || garbage,
                     KeyText(m, key.Type(), StoredAttrs(attrs)));
  }

  lemma FlushKeeps(m: Meta, db: Db, key: MetaKey, attrs: seq<Attribute>, garbage: bool, k: MetaKey)
    requires key.FdbKey? && Typed(m, FDB_ENTRY, attrs) && Typed(m, FDB_ENTRY, Completed(attrs))
    requires k in db.store && !k.FdbKey? && key.mac == ZERO_MAC
    ensures var store := AfterNotice(m, db, key, Flushed, attrs, garbage).store; k in store && store[k] == db.store[k]
  {
    ErasedKeeps(db, Flushable(db.store, key.bvId, attrs), k);
  }

  lemma ErasedKeeps(db: Db, ks: set<MetaKey>, k: MetaKey)
    requires k in db.store && k !in ks
    ensures k in Erased(db, ks).store && Erased(db, ks).store[k] == db.store[k]
  {
  }

  lemma OtherAgrees(order: Order, m: Meta, db: Db, raw: RawStore, e: Event)
    requires WellFormed(m, e) && Agree(db, raw) && !CreateDone(m, db, e) && !SetDone(m, db, e)
    ensures Agree(Apply(m, db, e), RawAfter(order, m, db, raw, e))
  {
    var db', raw' := Apply(m, db, e), RawAfter(order, m, db, raw, e);
    forall k | k in raw' ensures AgreeAt(k, db'.store[k], raw'[k]) {
      FilledPresent(db'.store[k]);
      if k in raw && !k.FdbKey? {
        OthersKept(m, db, e, k);
        assert AgreeAt(k, db.store[k], raw[k]);
      }
    }
  }

  lemma AfterAgrees(order: Order, m: Meta, db: Db, raw: RawStore, e: Event)
    requires Lawful(m) && WellFormed(m, e) && Agree(db, raw)
    ensures Agree(Apply(m, db, e), RawAfter(order, m, db, raw, e))
  {
    if CreateDone(m, db, e) {
      CreateAgrees(order, m, db, raw, e);
    } else if SetDone(m, db, e) {
      SetAgrees(order, m, db, raw, e);
    } else {
      OtherAgrees(order, m, db, raw, e);
    }
  }

  ghost function RawRun(order: Order, m: Meta, db: Db, raw: RawStore, es: seq<Event>): RawStore
    requires forall e <- es :: WellFormed(m, e)
    decreases |es|
  {
    if es == [] then raw
    else
      assert es[0] in es;
      RawRun(order, m, Apply(m, db, es[0]), RawAfter(order, m, db, raw, es[0]), es[1..])
  }

  lemma {:induction false} RunAgrees(order: Order, m: Meta, db: Db, raw: RawStore, es: seq<Event>)
    requires Lawful(m) && Agree(db, raw) && forall e <- es :: WellFormed(m, e)
    ensures Agree(Run(m, db, es), RawRun(order, m, db, raw, es))
    decreases |es|
  {
    if es != [] {
      assert es[0] in es;
      AfterAgrees(order, m, db, raw, es[0]);
      RunAgrees(order, m, Apply(m, db, es[0]), RawAfter(order, m, db, raw, es[0]), es[1..]);
    }
  }

  /** After every run, whichever order the compiler chose, the objects and the attributes
      they hold are those of the model. */
  lemma OrdersAgree(order: Order, m: Meta, es: seq<Event>)
    requires Lawful(m) && forall e <- es :: WellFormed(m, e)
    ensures var db, raw := Run(m, EMPTY, es), RawRun(order, m, EMPTY, map[], es);
            raw.Keys == db.store.Keys && forall k <- raw :: Present(raw[k]) == db.store[k]
  {
    RunAgrees(order, m, EMPTY, map[], es);
    var db, raw := Run(m, EMPTY, es), RawRun(order, m, EMPTY, map[], es);
    forall k | k in raw ensures Present(raw[k]) == db.store[k] {
      assert AgreeAt(k, db.store[k], raw[k]);
    }
  }

  // ------------------------------------------------------------------ null slots

  ghost predicate NullAt(raw: RawStore, k: MetaKey, id: AttrId) { k in raw && id in Nulls(raw[k]) }

  /** The copy of attribute `id` of object `k` throws, where the object has no such
      attribute. */
  ghost predicate CopyThrows(m: Meta, db: Db, e: Event, k: MetaKey, id: AttrId)
    requires WellFormed(m, e)
  {
    && e.key == k
    && if e.Create? then CreateDone(m, db, e) && Stops(e.attrs, 0) < |e.attrs| && e.attrs[Stops(e.attrs, 0)].id == id
       else SetDone(m, db, e) && e.attr.id == id && !Storable(e.attr.value) && id !in db.store[k]
  }

  /** A set of the attribute that stores it. */
  ghost predicate Refills(m: Meta, db: Db, e: Event, k: MetaKey, id: AttrId)
    requires WellFormed(m, e)
  {
    SetDone(m, db, e) && e.key == k && e.attr.id == id && Storable(e.attr.value)
  }

  /** A null slot is made exactly by a copy that throws after its slot was made, and stays
      until the attribute is set or its object goes. */
  lemma NullSlotBy(order: Order, m: Meta, db: Db, raw: RawStore, e: Event, k: MetaKey, id: AttrId)
    requires Lawful(m) && WellFormed(m, e) && Admissible(m, db, e) && Agree(db, raw)
    ensures var raw' := RawAfter(order, m, db, raw, e);
            && (!NullAt(raw, k, id) ==>
                  (NullAt(raw', k, id) <==> order.SlotFirst? && CopyThrows(m, db, e, k, id)))
            && (NullAt(raw, k, id) && k in raw' ==> (NullAt(raw', k, id) <==> !Refills(m, db, e, k, id)))
  {
    if CreateDone(m, db, e) {
      NullByCreate(order, m, db, raw, e, k, id);
    } else if SetDone(m, db, e) {
      NullBySet(order, m, db, raw, e, k, id);
    } else {
      NullByOther(order, m, db, raw, e, k, id);
    }
  }

  lemma NullByOther(order: Order, m: Meta, db: Db, raw: RawStore, e: Event, k: MetaKey, id: AttrId)
    requires WellFormed(m, e) && Agree(db, raw) && !CreateDone(m, db, e) && !SetDone(m, db, e)
    ensures NullAt(RawAfter(order, m, db, raw, e), k, id) <==>
              NullAt(raw, k, id) && k in RawAfter(order, m, db, raw, e)
    ensures !CopyThrows(m, db, e, k, id) && !Refills(m, db, e, k, id)
  {
    if k in RawAfter(order, m, db, raw, e) {
      OtherSlots(order, m, db, raw, e, k);
    }
  }

  lemma NullInUpdate(raw: RawStore, key: MetaKey, slots: Slots, k: MetaKey, id: AttrId)
    ensures NullAt(raw[key := slots], k, id) <==> if k == key then id in Nulls(slots) else NullAt(raw, k, id)
  {
  }

  lemma NullByCreate(order: Order, m: Meta, db: Db, raw: RawStore, e: Event, k: MetaKey, id: AttrId)
    requires Lawful(m) && WellFormed(m, e) && Admissible(m, db, e) && Agree(db, raw) && CreateDone(m, db, e)
    ensures NullAt(RawAfter(order, m, db, raw, e), k, id) <==>
              NullAt(raw, k, id) || (order.SlotFirst? && CopyThrows(m, db, e, k, id))
  {
    CreatedSlots(order, m, db, e);
    CreateMissing(m, db, e);
    NullInUpdate(raw, e.key, AssignUpTo(order, e.attrs, |e.attrs|).0, k, id);
  }

  lemma NullBySet(order: Order, m: Meta, db: Db, raw: RawStore, e: Event, k: MetaKey, id: AttrId)
    requires Lawful(m) && WellFormed(m, e) && Agree(db, raw) && SetDone(m, db, e)
    ensures NullAt(RawAfter(order, m, db, raw, e), k, id) <==>
              (NullAt(raw, k, id) && !Refills(m, db, e, k, id))
              || (order.SlotFirst? && CopyThrows(m, db, e, k, id))
  {
    SetSlots(order, m, db, raw, e);
    NullInUpdate(raw, e.key, Assign(order, raw[e.key], e.attr).0, k, id);
  }

  lemma CreateMissing(m: Meta, db: Db, e: Event)
    requires WellFormed(m, e) && Admissible(m, db, e) && CreateDone(m, db, e)
    ensures e.key !in db.store
  {
  }

  lemma OtherSlots(order: Order, m: Meta, db: Db, raw: RawStore, e: Event, k: MetaKey)
    requires WellFormed(m, e) && Agree(db, raw) && !CreateDone(m, db, e) && !SetDone(m, db, e)
    requires k in RawAfter(order, m, db, raw, e)
    ensures Nulls(RawAfter(order, m, db, raw, e)[k]) == if k in raw then Nulls(raw[k]) else {}
  {
    FilledPresent(Apply(m, db, e).store[k]);
    if k in raw {
      assert AgreeAt(k, db.store[k], raw[k]);
    }
  }

  /** Objects whose attributes the removal of `key` goes over */
  function Walked(m: Meta, db: Db, key: MetaKey): set<MetaKey> {
    {key} + if key.OidKey? && key.objectType == PORT then RelatedKeys(m, db, key.oid) else {}
  }

  /** An object with a null slot leaves the database only when it is reset or by a removal
      that goes over its attributes, where the program reads through the null pointer. */
  lemma NullSlotLeaves(order: Order, m: Meta, db: Db, raw: RawStore, e: Event, k: MetaKey, id: AttrId)
    requires WellFormed(m, e) && Agree(db, raw) && NullAt(raw, k, id)
    requires k !in RawAfter(order, m, db, raw, e)
    ensures e.Remove? && (ResetsDb(db, e.key) || k in Walked(m, db, e.key))
  {
    assert AgreeAt(k, db.store[k], raw[k]);
    if e.Notify? {
      var oids := [e.key.bvId] + NotifiedOids(m, e.attrs);
      SnoopsKeep(m, db, oids, k);
      NoticeKeeps(m, AfterSnoops(m, db, oids), e.key, e.kind, e.attrs, e.garbage, k);
    } else if e.Get? && e.answer.Some? {
      SnoopsKeep(m, db, ResultOids(e.answer.value), k);
    }
  }

  /** Every value of the call prints. */
  predicate AllPrint(e: Event) {
    (e.Create? ==> AllStorable(e.attrs)) && (e.Set? ==> Storable(e.attr.value))
  }

  /** No slot is ever null when the copy is made first, or when all values print: the
      orders can be told apart only once an exception has been thrown. */
  lemma {:induction false} NoNullSlots(order: Order, m: Meta, db: Db, raw: RawStore, es: seq<Event>)
    requires Lawful(m) && Agree(db, raw) && (forall e <- es :: WellFormed(m, e)) && AdmissibleRun(m, db, es)
    requires order.CopyFirst? || forall e <- es :: AllPrint(e)
    requires forall k, id :: !NullAt(raw, k, id)
    ensures forall k, id :: !NullAt(RawRun(order, m, db, raw, es), k, id)
    decreases |es|
  {
    if es != [] {
      assert es[0] in es;
      var raw' := RawAfter(order, m, db, raw, es[0]);
      forall k, id ensures !NullAt(raw', k, id) {
        NullSlotBy(order, m, db, raw, es[0], k, id);
        if es[0].Create? {
          StopsFirst(es[0].attrs, 0);
        }
      }
      AfterAgrees(order, m, db, raw, es[0]);
      NoNullSlots(order, m, Apply(m, db, es[0]), raw', es[1..]);
    }
  }
}
