/** Whole runs of the metadata database: API calls and fdb notifications in any order. */
module MetaRuns {
  import opened Sai
  import opened Stored
  import opened MetaState
  import opened RefBags
  import opened MetaInvariant
  import opened MetaSteps

  /** One API call or notification with what the vendor answers. A create names the key of
      the object made, whose oid the vendor chooses. */
  datatype Event =
    | Create(key: MetaKey, sw: Oid, attrs: seq<Attribute>, vendorOk: bool, garbage: bool)
    | Set(key: MetaKey, attr: Attribute, vendorOk: bool)
    | Remove(key: MetaKey, vendorOk: bool)
    | Get(key: MetaKey, query: seq<Attribute>, answer: Option<seq<Attribute>>)
    | Notify(key: MetaKey, kind: FdbKind, attrs: seq<Attribute>, garbage: bool)

  /** Values carry the union member their metadata names. */
  ghost predicate WellFormed(m: Meta, e: Event) {
    var t := e.key.Type();
    match e
    case Create(key, sw, attrs, _, _) => Typed(m, t, attrs) && (!key.OidKey? ==> sw == key.switchId)
    case Set(_, a, _) => Typed(m, t, [a])
    case Remove(_, _) => true
    case Get(_, query, answer) =>
      Typed(m, t, query) && (answer.Some? ==> Typed(m, t, answer.value) && SameIds(query, answer.value))
    case Notify(key, _, attrs, _) => key.FdbKey? && Typed(m, t, attrs) && Typed(m, t, Completed(attrs))
  }

  /** A get fills in the attributes it was asked for. */
  predicate SameIds(query: seq<Attribute>, answer: seq<Attribute>) {
    |query| == |answer| && forall i: nat :: i < |query| ==> query[i].id == answer[i].id
  }

  ghost predicate CreateAccepted(m: Meta, db: Db, key: MetaKey, sw: Oid, attrs: seq<Attribute>)
    requires Typed(m, key.Type(), attrs)
  {
    EntryStatus(m, db.store, key, CreateCall) == Success && CreateStatus(m, db, key, sw, attrs) == Success
  }

  /** The lists a port is asked for come back non-null and of the types they may hold. */
  ghost predicate RelatedAnswer(m: Meta, results: seq<Attribute>) {
    forall a <- results :: IsPortRelated(PORT, a.id) ==>
      && m.Has(PORT, a.id) && a.value.Plain? && a.value.data.OidListV?
      && (a.value.data.oids.Null? ==> a.value.data.oids.count == 0)
      && (forall o <- a.value.data.oids.Elements() ::
            o != NULL_OID && m.typeOf(o) != NULL_TYPE && m.typeOf(o) in m.Of(PORT, a.id).allowed)
  }

  /** What the vendor must respect: fresh oids, sound related lists, and an entry type on a
      consolidated flush. */
  ghost predicate Admissible(m: Meta, db: Db, e: Event)
    requires WellFormed(m, e)
  {
    match e
    case Create(key, sw, attrs, vendorOk, _) =>
      vendorOk && CreateAccepted(m, db, key, sw, attrs) ==> VendorCreated(m, db, key, sw)
    case Set(_, _, _) => true
    case Remove(_, _) => true
    case Get(key, _, answer) => answer.Some? && key.Type() == PORT ==> RelatedAnswer(m, answer.value)
    case Notify(key, kind, attrs, _) => kind.Flushed? && key.mac == ZERO_MAC ==> Find(attrs, FDB_TYPE).Some?
  }

  ghost function Apply(m: Meta, db: Db, e: Event): Db
    requires WellFormed(m, e)
  {
    match e
    case Create(key, sw, attrs, vendorOk, garbage) =>
      if vendorOk && CreateAccepted(m, db, key, sw, attrs)
      then AfterPostCreate(m, db, key, attrs, garbage) else db
    case Set(key, a, vendorOk) =>
      if vendorOk && EntryStatus(m, db.store, key, OtherCall) == Success
         && SetStatus(m, db.refs, db.store, key, a) == Success && key in db.store && Storable(a.value)
      then AfterSet(db, key, a) else db
    case Remove(key, vendorOk) =>
      if EntryStatus(m, db.store, key, OtherCall) != Success || RemoveStatus(m, db, key) != Success then db
      else if ResetsDb(db, key) then EMPTY
      else if vendorOk then AfterRemove(m, db, key) else db
    case Get(key, query, answer) =>
      if answer.Some? && EntryStatus(m, db.store, key, GetCall) == Success
         && GetStatus(m, db.store, key, query) == Success
      then AfterGet(m, db, key, answer.value) else db
    case Notify(key, kind, attrs, garbage) => AfterFdb(m, db, key, kind, attrs, garbage)
  }

  /** Validating the removal of a referenced switch clears the whole database, before the
      vendor is asked. */
  predicate ResetsDb(db: Db, key: MetaKey) {
    key.OidKey? && key.objectType == SWITCH && key.oid in db.refs && db.refs[key.oid] != 0
  }

  // ------------------------------------------------------------------ answers

  /** What the calls answer: the first check that refuses, the vendor's failure, or the
      exception of a value that does not print. `Failure` stands for any vendor error. */
  ghost function CreateAnswered(m: Meta, db: Db, key: MetaKey, sw: Oid, attrs: seq<Attribute>, vendorOk: bool): Status
    requires Typed(m, key.Type(), attrs)
  {
    var entry, valid := EntryStatus(m, db.store, key, CreateCall), CreateStatus(m, db, key, sw, attrs);
    if entry != Success then entry
    else if valid != Success then valid
    else if !vendorOk then Failure
    else if AllStorable(attrs) then Success else Fatal
  }

  ghost function SetAnswered(m: Meta, db: Db, key: MetaKey, a: Attribute, vendorOk: bool): Status
    requires Typed(m, key.Type(), [a])
  {
    var entry, valid := EntryStatus(m, db.store, key, OtherCall), SetStatus(m, db.refs, db.store, key, a);
    if entry != Success then entry
    else if valid != Success then valid
    else if !vendorOk then Failure
    else if Storable(a.value) then Success else Fatal
  }

  ghost function RemoveAnswered(m: Meta, db: Db, key: MetaKey, vendorOk: bool): Status {
    var entry, valid := EntryStatus(m, db.store, key, OtherCall), RemoveStatus(m, db, key);
    if entry != Success then entry
    else if valid != Success then valid
    else if vendorOk then Success else Failure
  }

  ghost function GetAnswered(m: Meta, db: Db, key: MetaKey, query: seq<Attribute>, answer: Option<seq<Attribute>>)
    : Status
    requires Typed(m, key.Type(), query)
  {
    var entry, valid := EntryStatus(m, db.store, key, GetCall), GetStatus(m, db.store, key, query);
    if entry != Success then entry
    else if valid != Success then valid
    else if answer.Some? then Success else Failure
  }

  // ------------------------------------------------------------ preservation

  lemma RelatedAccepted(m: Meta, db: Db, port: Oid, o: Oid)
    requires port in db.related && o in db.related[port]
    requires PortStatus(m, db.refs, db.store, db.related, port) == Success
    ensures o in db.refs && db.refs[o] == 0 && KeyOf(m, o) in db.store
  {
    var bad := set o | o in db.related[port] && !RelatedOk(m, db.refs, db.store, o);
    assert bad == {} && o !in bad;
  }

  lemma RemoveErasable(m: Meta, db: Db, key: MetaKey)
    requires RemoveStatus(m, db, key) == Success && !ResetsDb(db, key)
    ensures key.OidKey? && key.objectType == PORT && key.oid in db.related ==>
              Erasable(db, {key} + RelatedKeys(m, db, key.oid))
    ensures Erasable(db, {key})
  {
    if key.OidKey? && key.objectType == PORT && key.oid in db.related {
      forall o | o in db.related[key.oid]
        ensures o in db.refs && db.refs[o] == 0 && KeyOf(m, o) in db.store
      {
        RelatedAccepted(m, db, key.oid, o);
      }
    }
  }

  lemma PortRemoveState(m: Meta, db: Db, key: MetaKey, ks: set<MetaKey>)
    requires key.OidKey? && key.objectType == PORT && key.oid in db.related
    requires ks == {key} + RelatedKeys(m, db, key.oid)
    ensures AfterRemove(m, db, key) == Erased(db, ks).(related := db.related[key.oid := {}])
  {
  }

  lemma PortRemovePreserves(m: Meta, db: Db, key: MetaKey, ks: set<MetaKey>)
    requires Inv(m, db) && key.OidKey? && Erasable(db, ks)
    ensures Inv(m, Erased(db, ks).(related := db.related[key.oid := {}]))
  {
    ErasePreserves(m, db, ks);
    RelatedChange(m, Erased(db, ks), db.related[key.oid := {}]);
  }

  lemma RemovePreserves(m: Meta, db: Db, key: MetaKey)
    requires Inv(m, db) && RemoveStatus(m, db, key) == Success && !ResetsDb(db, key)
    ensures Inv(m, AfterRemove(m, db, key))
  {
    RemoveErasable(m, db, key);
    if key.Type() == SWITCH {
    } else if key.OidKey? && key.objectType == PORT && key.oid in db.related {
      var ks := {key} + RelatedKeys(m, db, key.oid);
      PortRemovePreserves(m, db, key, ks);
      PortRemoveState(m, db, key, ks);
    } else {
      ErasePreserves(m, db, {key});
    }
  }

  lemma RelatedChange(m: Meta, db: Db, related: map<Oid, set<Oid>>)
    requires Inv(m, db) && RelatedSane(m, related)
    ensures Inv(m, db.(related := related))
  {
  }

  lemma RelatedAnswerTypes(m: Meta, results: seq<Attribute>, o: Oid)
    requires Lawful(m) && RelatedAnswer(m, results) && o in RelatedOids(results)
    ensures o != NULL_OID && m.typeOf(o) !in {NULL_TYPE, PORT, SWITCH}
  {
    var a :| a in results && IsPortRelated(PORT, a.id) && o in DataRefs(a.value.data);
    assert AttrLawful(m, PORT, a.id);
  }

  lemma GetPreserves(m: Meta, db: Db, key: MetaKey, results: seq<Attribute>)
    requires Lawful(m) && Inv(m, db)
    requires key.Type() == PORT ==> RelatedAnswer(m, results)
    ensures Inv(m, AfterGet(m, db, key, results))
  {
    var db1 := AfterSnoops(m, db, ResultOids(results));
    SnoopsPreserve(m, db, ResultOids(results));
    if key.Type() == PORT && key.OidKey? {
      forall o | o in RelatedOids(results)
        ensures o != NULL_OID && m.typeOf(o) !in {NULL_TYPE, PORT, SWITCH}
      {
        RelatedAnswerTypes(m, results, o);
      }
      WithRelatedSane(m, db1.related, key.oid, RelatedOids(results));
      RelatedChange(m, db1, WithRelated(db1.related, key.oid, RelatedOids(results)));
    }
  }

  lemma WithRelatedSane(m: Meta, related: map<Oid, set<Oid>>, port: Oid, oids: set<Oid>)
    requires RelatedSane(m, related)
    requires forall o <- oids :: o != NULL_OID && m.typeOf(o) !in {NULL_TYPE, PORT, SWITCH}
    ensures RelatedSane(m, WithRelated(related, port, oids))
  {
  }

  lemma MoveStepPreserves(m: Meta, db: Db, key: MetaKey, a: Attribute)
    requires Lawful(m) && Inv(m, db) && Typed(m, key.Type(), [a])
    ensures Inv(m, AfterMoveStep(m, db, key, a))
  {
    if SetStatus(m, db.refs, db.store, key, a) == Success {
      SetPreserves(m, db, key, a);
    }
  }

  lemma {:induction false} MovePreserves(m: Meta, db: Db, key: MetaKey, attrs: seq<Attribute>)
    requires Lawful(m) && Inv(m, db) && Typed(m, key.Type(), attrs)
    ensures Inv(m, AfterMove(m, db, key, attrs))
    decreases |attrs|
  {
    if attrs != [] {
      TypedSplit(m, key.Type(), attrs);
      if SetStatus(m, db.refs, db.store, key, attrs[0]) != Fatal {
        MoveStepPreserves(m, db, key, attrs[0]);
        MovePreserves(m, AfterMoveStep(m, db, key, attrs[0]), key, attrs[1..]);
      }
    }
  }

  lemma LearnPreserves(m: Meta, db: Db, key: MetaKey, attrs: seq<Attribute>, garbage: bool)
    requires Lawful(m) && Inv(m, db) && key.FdbKey? && Typed(m, FDB_ENTRY, attrs)
    requires CreateStatus(m, db, key, key.switchId, attrs) == Success
    ensures Inv(m, AfterCreate(m, db, key, attrs, garbage))
  {
    CreatePreserves(m, db, key, key.switchId, attrs, garbage);
  }

  lemma FlushPreserves(m: Meta, db: Db, bvId: Oid, attrs: seq<Attribute>)
    requires Inv(m, db)
    ensures Inv(m, Erased(db, Flushable(db.store, bvId, attrs)))
  {
    ErasePreserves(m, db, Flushable(db.store, bvId, attrs));
  }

  lemma AgePreserves(m: Meta, db: Db, key: MetaKey)
    requires Inv(m, db) && key.FdbKey? && key in db.store
    ensures Inv(m, Erased(db, {key}))
  {
    ErasePreserves(m, db, {key});
  }

  lemma NotifyPreserves(m: Meta, db0: Db, key: MetaKey, kind: FdbKind, attrs: seq<Attribute>, garbage: bool)
    requires Lawful(m) && Inv(m, db0)
    requires key.FdbKey? && Typed(m, FDB_ENTRY, attrs) && Typed(m, FDB_ENTRY, Completed(attrs))
    ensures Inv(m, AfterFdb(m, db0, key, kind, attrs, garbage))
  {
    var db := AfterSnoops(m, db0, [key.bvId] + NotifiedOids(m, attrs));
    SnoopsPreserve(m, db0, [key.bvId] + NotifiedOids(m, attrs));
    if kind.Learned? && key !in db.store
       && CreateStatus(m, db, key, key.switchId, Completed(attrs)) == Success {
      LearnPreserves(m, db, key, Completed(attrs), garbage);
    }
    if kind.Flushed? && key.mac == ZERO_MAC {
      FlushPreserves(m, db, key.bvId, attrs);
    }
    if (kind.Aged? || kind.Flushed?) && key in db.store {
      AgePreserves(m, db, key);
    }
    if kind.Move? && key in db.store {
      MovePreserves(m, db, key, attrs);
    }
  }

  /** The post step of an accepted create keeps the invariant, interrupted or not. */
  lemma PostCreatePreserves(m: Meta, db: Db, key: MetaKey, sw: Oid, attrs: seq<Attribute>, garbage: bool)
    requires Creatable(m, db, key, sw, attrs)
    ensures Inv(m, AfterPostCreate(m, db, key, attrs, garbage))
  {
    if AllStorable(attrs) {
      CreatePreserves(m, db, key, sw, attrs, garbage);
    } else {
      if key.FdbKey? {
        FdbCreatePrints(m, db, key, attrs);
      }
      InterruptPreserves(m, db, key, sw, attrs, Stops(attrs, 0));
    }
  }

  lemma ApplyCreate(m: Meta, db: Db, e: Event)
    requires Lawful(m) && Inv(m, db) && WellFormed(m, e) && Admissible(m, db, e) && e.Create?
    ensures Inv(m, Apply(m, db, e))
  {
    if e.vendorOk && CreateAccepted(m, db, e.key, e.sw, e.attrs) {
      PostCreatePreserves(m, db, e.key, e.sw, e.attrs, e.garbage);
    }
  }

  lemma ApplyRemove(m: Meta, db: Db, e: Event)
    requires Inv(m, db) && WellFormed(m, e) && e.Remove?
    ensures Inv(m, Apply(m, db, e))
  {
    EmptyInv(m);
    if RemoveStatus(m, db, e.key) == Success && !ResetsDb(db, e.key) {
      RemovePreserves(m, db, e.key);
    }
  }

  /** Every call and every notification keeps the invariant, whatever its outcome. */
  lemma ApplyPreserves(m: Meta, db: Db, e: Event)
    requires Lawful(m) && Inv(m, db) && WellFormed(m, e) && Admissible(m, db, e)
    ensures Inv(m, Apply(m, db, e))
  {
    match e
    case Create(_, _, _, _, _) => ApplyCreate(m, db, e);
    case Set(key, a, _) =>
      if SetStatus(m, db.refs, db.store, key, a) == Success {
        SetPreserves(m, db, key, a);
      }
    case Remove(_, _) => ApplyRemove(m, db, e);
    case Get(key, _, answer) =>
      if answer.Some? {
        GetPreserves(m, db, key, answer.value);
      }
    case Notify(key, kind, attrs, garbage) => NotifyPreserves(m, db, key, kind, attrs, garbage);
  }

  ghost function Run(m: Meta, db: Db, es: seq<Event>): Db
    requires forall e <- es :: WellFormed(m, e)
    decreases |es|
  {
    if es == [] then db
    else
      assert es[0] in es;
      Run(m, Apply(m, db, es[0]), es[1..])
  }

  ghost predicate AdmissibleRun(m: Meta, db: Db, es: seq<Event>)
    requires forall e <- es :: WellFormed(m, e)
    decreases |es|
  {
    es == []
    || (assert es[0] in es;
        Admissible(m, db, es[0]) && AdmissibleRun(m, Apply(m, db, es[0]), es[1..]))
  }

  lemma {:induction false} RunPreserves(m: Meta, db: Db, es: seq<Event>)
    requires Lawful(m) && Inv(m, db)
    requires (forall e <- es :: WellFormed(m, e)) && AdmissibleRun(m, db, es)
    ensures Inv(m, Run(m, db, es))
    decreases |es|
  {
    if es != [] {
      assert es[0] in es;
      ApplyPreserves(m, db, es[0]);
      RunPreserves(m, Apply(m, db, es[0]), es[1..]);
    }
  }

  // ------------------------------------------------ theorems about every run

  ghost predicate Reachable(m: Meta, db: Db) {
    exists es: seq<Event> ::
      (forall e <- es :: WellFormed(m, e)) && AdmissibleRun(m, EMPTY, es) && db == Run(m, EMPTY, es)
  }

  lemma ReachableInv(m: Meta, db: Db)
    requires Lawful(m) && Reachable(m, db)
    ensures Inv(m, db)
  {
    var es: seq<Event> :|
      (forall e <- es :: WellFormed(m, e)) && AdmissibleRun(m, EMPTY, es) && db == Run(m, EMPTY, es);
    EmptyInv(m);
    RunPreserves(m, EMPTY, es);
  }

  /** Reference conservation: a counted oid's count is its number of occurrences, the
      counted oids are exactly the oid-typed keys of the store, and no stored non-null oid
      dangles. */
  lemma ReferenceConservation(m: Meta, db: Db, o: Oid)
    requires Lawful(m) && Reachable(m, db)
    ensures o in db.refs ==> db.refs[o] == StoreBag(db.store)[o]
    ensures o in db.refs <==> o != NULL_OID && KeyOf(m, o) in db.store
    ensures o in StoreBag(db.store) && o != NULL_OID ==> o in db.refs
    ensures forall t :: OidKey(t, o) in db.store ==> t == m.typeOf(o)
  {
    ReachableInv(m, db);
    InStoreBag(db.store, o);
    if o in StoreBag(db.store) {
      var k :| k in db.store && o in ObjectBag(k, db.store[k]);
      assert BagOk(m, db.refs, k, db.store[k]);
      assert RefAt(m, db.refs, SwitchOfKey(m, k), o);
    }
  }

  /** Switch isolation: whatever an object holds lies on its own switch. */
  lemma SwitchIsolation(m: Meta, db: Db, k: MetaKey, o: Oid)
    requires Lawful(m) && Reachable(m, db)
    requires k in db.store && o in ObjectBag(k, db.store[k]) && o != NULL_OID
    ensures m.switchOf(o) == if k.OidKey? then m.switchOf(k.oid) else k.switchId
  {
    ReachableInv(m, db);
    assert BagOk(m, db.refs, k, db.store[k]);
    assert RefAt(m, db.refs, SwitchOfKey(m, k), o);
  }

  /** The key index: entries are the recomputed key texts of existing objects, and no two
      objects share a non-empty key text, indexed or not, unless an exception interrupted
      the create of one of them. */
  lemma KeyIndexAgrees(m: Meta, db: Db, j: MetaKey, k: MetaKey)
    requires Lawful(m) && Reachable(m, db)
    ensures k in db.keys ==> k in db.store && db.keys[k] == KeyText(m, k.Type(), db.store[k])
    ensures j in db.store && k in db.store && {j, k} !! db.interrupted && j != k
            && KeyText(m, k.Type(), db.store[k]) != "" ==>
              KeyText(m, j.Type(), db.store[j]) != KeyText(m, k.Type(), db.store[k])
  {
    ReachableInv(m, db);
    KeyOfIndex(m, db, j);
    KeyOfIndex(m, db, k);
  }

  lemma KeyOfIndex(m: Meta, db: Db, k: MetaKey)
    requires KeysAgree(m, db)
    ensures k in db.keys ==> k in db.store && db.keys[k] == KeyText(m, k.Type(), db.store[k])
    ensures k in db.store && k !in db.interrupted && k !in db.keys ==> KeyText(m, k.Type(), db.store[k]) == ""
  {
    if k in db.store && k !in db.interrupted {
      assert KeyAgrees(m, db.keys, k, db.store[k]);
    }
  }

  /** Mandatory attributes persist: whatever was created and is still stored has them, so
      the entry type a consolidated flush looks up is always there. */
  lemma MandatoryPersists(m: Meta, db: Db, k: MetaKey, id: AttrId)
    requires Lawful(m) && Reachable(m, db)
    ensures k in db.created && IsUnconditional(m, k.Type(), id) ==> k in db.store && id in db.store[k]
    ensures k in db.store && k.FdbKey? ==> FDB_TYPE in db.store[k]
  {
    ReachableInv(m, db);
    if k in db.created { assert HasMandatory(m, k.Type(), db.store[k]); }
    assert IsUnconditional(m, FDB_ENTRY, FDB_TYPE);
  }

  /** An object leaves the history of created objects only by leaving the store. */
  lemma CreatedUntilRemoved(m: Meta, db: Db, e: Event, k: MetaKey)
    requires WellFormed(m, e)
    requires k in db.created && k in db.store && k in Apply(m, db, e).store
    ensures k in Apply(m, db, e).created
  {
    match e
    case Create(_, _, _, _, _) =>
    case Set(_, _, _) =>
    case Remove(_, _) =>
    case Get(key, _, answer) =>
      if answer.Some? { SnoopsKeepCreated(m, db, ResultOids(answer.value)); }
    case Notify(key, kind, attrs, _) =>
      var oids := [key.bvId] + NotifiedOids(m, attrs);
      SnoopsKeepCreated(m, db, oids);
      MoveKeepsCreated(m, AfterSnoops(m, db, oids), key, attrs);
  }

  /** An object is interrupted exactly by a create, accepted and answered, one of whose
      attributes does not print. */
  lemma InterruptedBy(m: Meta, db: Db, e: Event, k: MetaKey)
    requires WellFormed(m, e) && k !in db.interrupted
    ensures k in Apply(m, db, e).interrupted <==>
              && e.Create? && e.key == k && e.vendorOk
              && CreateAccepted(m, db, k, e.sw, e.attrs) && !AllStorable(e.attrs)
  {
    match e
    case Create(_, _, _, _, _) =>
    case Set(_, _, _) =>
    case Remove(_, _) =>
    case Get(key, _, answer) =>
      if answer.Some? { SnoopsKeepCreated(m, db, ResultOids(answer.value)); }
    case Notify(key, kind, attrs, _) =>
      var oids := [key.bvId] + NotifiedOids(m, attrs);
      SnoopsKeepCreated(m, db, oids);
      MoveKeepsCreated(m, AfterSnoops(m, db, oids), key, attrs);
  }

  lemma {:induction false} SnoopsKeepCreated(m: Meta, db: Db, oids: seq<Oid>)
    ensures AfterSnoops(m, db, oids).created == db.created
    ensures AfterSnoops(m, db, oids).interrupted == db.interrupted
    decreases |oids|
  {
    if oids != [] { SnoopsKeepCreated(m, AfterSnoop(m, db, oids[0]), oids[1..]); }
  }

  lemma {:induction false} MoveKeepsCreated(m: Meta, db: Db, key: MetaKey, attrs: seq<Attribute>)
    requires Typed(m, key.Type(), attrs)
    ensures AfterMove(m, db, key, attrs).created == db.created
    ensures AfterMove(m, db, key, attrs).interrupted == db.interrupted
    decreases |attrs|
  {
    if attrs != [] {
      TypedSplit(m, key.Type(), attrs);
      if SetStatus(m, db.refs, db.store, key, attrs[0]) != Fatal {
        MoveKeepsCreated(m, AfterMoveStep(m, db, key, attrs[0]), key, attrs[1..]);
      }
    }
  }

  // ----------------------------------------------------- conditional attributes

  lemma {:induction false} ConditionalsAccepted(m: Meta, t: ObjectType, attrs: seq<Attribute>, ids: seq<AttrId>)
    requires ConditionalsStatus(m, t, attrs, ids) == Success
    ensures forall id <- ids :: ConditionalStatus(m, t, attrs, id) == Success
  {
    if ids != [] {
      ConditionalsAccepted(m, t, attrs, ids[1..]);
      assert ids == [ids[0]] + ids[1..];
    }
  }

  // ------------------------------------------------------------- port removal

  lemma DefaultAttrNull(m: Meta, t: ObjectType, id: AttrId, v: Value, o: Oid)
    requires StoredOk(m, t, id, v) && AttrLawful(m, t, id) && DefaultAttr(m, t, id, v) && o in Refs(v)
    ensures o == NULL_OID
  {
    assert IsOidType(m.Of(t, id).valueType);
  }

  /** An object in default state holds null oids only. */
  lemma DefaultHoldsNull(m: Meta, db: Db, oid: Oid, o: Oid)
    requires Lawful(m) && AttrsOk(m, db) && InDefaultState(m, db.refs, db.store, oid)
    requires o in ObjectBag(KeyOf(m, oid), db.store[KeyOf(m, oid)])
    ensures o == NULL_OID
  {
    var k := KeyOf(m, oid);
    InAttrBag(db.store[k], o);
    var id :| id in db.store[k] && o in Refs(db.store[k][id]);
    assert ObjectOk(m, k.objectType, db.store[k]);
    DefaultAttrNull(m, k.objectType, id, db.store[k][id], o);
  }

  ghost predicate PortAccepted(m: Meta, db: Db, port: Oid) {
    && m.typeOf(port) == PORT && port in db.related
    && RemoveStatus(m, db, OidKey(PORT, port)) == Success
  }

  function Group(db: Db, port: Oid): set<Oid>
    requires port in db.related
  {
    {port} + db.related[port]
  }

  function GroupKeys(m: Meta, db: Db, port: Oid): set<MetaKey>
    requires port in db.related
  {
    set g | g in Group(db, port) :: KeyOf(m, g)
  }

  lemma GroupDefault(m: Meta, db: Db, port: Oid, g: Oid)
    requires PortAccepted(m, db, port) && g in Group(db, port)
    ensures RelatedOk(m, db.refs, db.store, g)
  {
    if g != port {
      var bad := set r | r in db.related[port] && !RelatedOk(m, db.refs, db.store, r);
      assert g !in bad;
    }
  }

  lemma GroupHoldsNull(m: Meta, db: Db, port: Oid, k: MetaKey, o: Oid)
    requires Lawful(m) && AttrsOk(m, db) && PortAccepted(m, db, port)
    requires k in GroupKeys(m, db, port) && k in db.store && o in ObjectBag(k, db.store[k])
    ensures o == NULL_OID
  {
    var g :| g in Group(db, port) && k == KeyOf(m, g);
    GroupDefault(m, db, port, g);
    DefaultHoldsNull(m, db, g, o);
  }

  lemma GroupBag(m: Meta, db: Db, port: Oid, o: Oid)
    requires Lawful(m) && AttrsOk(m, db) && PortAccepted(m, db, port) && o != NULL_OID
    ensures StoreBag(Restrict(db.store, GroupKeys(m, db, port)))[o] == 0
  {
    var ks := GroupKeys(m, db, port);
    var part := Restrict(db.store, ks);
    InStoreBag(part, o);
    forall k | k in part ensures o !in ObjectBag(k, part[k]) {
      if o in ObjectBag(k, part[k]) {
        GroupHoldsNull(m, db, port, k, o);
      }
    }
  }

  lemma PortRemovedKeys(m: Meta, db: Db, port: Oid)
    requires PortAccepted(m, db, port)
    ensures AfterRemove(m, db, OidKey(PORT, port))
         == Erased(db, GroupKeys(m, db, port)).(related := db.related[port := {}])
    ensures OidsOf(GroupKeys(m, db, port)) == Group(db, port)
  {
    PortKeys(m, db, port);
    GroupOids(m, db, port);
  }

  lemma PortKeys(m: Meta, db: Db, port: Oid)
    requires PortAccepted(m, db, port)
    ensures {OidKey(PORT, port)} + RelatedKeys(m, db, port) == GroupKeys(m, db, port)
  {
    var ks, gs := {OidKey(PORT, port)} + RelatedKeys(m, db, port), GroupKeys(m, db, port);
    assert KeyOf(m, port) == OidKey(PORT, port) && port in Group(db, port);
    forall k | k in ks ensures k in gs {
      if k != OidKey(PORT, port) {
        var g :| g in db.related[port] && k == KeyOf(m, g);
        assert g in Group(db, port);
      }
    }
    forall k | k in gs ensures k in ks {
      var g :| g in Group(db, port) && k == KeyOf(m, g);
    }
  }

  lemma GroupOids(m: Meta, db: Db, port: Oid)
    requires port in db.related
    ensures OidsOf(GroupKeys(m, db, port)) == Group(db, port)
  {
    forall g | g in Group(db, port) ensures g in OidsOf(GroupKeys(m, db, port)) {
      assert KeyOf(m, g) in GroupKeys(m, db, port);
    }
  }

  lemma GroupStored(m: Meta, db: Db, port: Oid)
    requires PortAccepted(m, db, port)
    ensures GroupKeys(m, db, port) <= db.store.Keys
  {
    forall k | k in GroupKeys(m, db, port) ensures k in db.store {
      var g :| g in Group(db, port) && k == KeyOf(m, g);
      GroupDefault(m, db, port, g);
    }
  }

  lemma GroupGone(m: Meta, db: Db, port: Oid, o: Oid)
    requires Lawful(m) && Inv(m, db) && PortAccepted(m, db, port) && o in Group(db, port)
    ensures var db' := AfterRemove(m, db, OidKey(PORT, port));
            o in db.refs && o !in db'.refs && StoreBag(db'.store)[o] == 0
  {
    PortRemovedKeys(m, db, port);
    RemovePreserves(m, db, OidKey(PORT, port));
    GroupDefault(m, db, port, o);
    UncountedUnused(m, AfterRemove(m, db, OidKey(PORT, port)), o);
  }

  lemma OthersKeepCount(m: Meta, db: Db, port: Oid, o: Oid)
    requires Lawful(m) && Inv(m, db) && PortAccepted(m, db, port) && o !in Group(db, port) && o in db.refs
    ensures var db' := AfterRemove(m, db, OidKey(PORT, port));
            o in db'.refs && db'.refs[o] == db.refs[o]
  {
    PortRemovedKeys(m, db, port);
    GroupBag(m, db, port, o);
  }

  /** Port removal cascade: an accepted removal of a port with related objects deletes the
      port and exactly its related objects, leaves no reference to any of them, and changes
      no other count. */
  lemma PortCascade(m: Meta, db: Db, port: Oid, o: Oid)
    requires Lawful(m) && Inv(m, db) && PortAccepted(m, db, port)
    ensures var db' := AfterRemove(m, db, OidKey(PORT, port));
            && Inv(m, db')
            && GroupKeys(m, db, port) <= db.store.Keys
            && db'.store == db.store - GroupKeys(m, db, port)
            && (o in Group(db, port) ==> o in db.refs && o !in db'.refs && StoreBag(db'.store)[o] == 0)
            && (o !in Group(db, port) && o in db.refs ==> o in db'.refs && db'.refs[o] == db.refs[o])
            && db'.related == db.related[port := {}]
  {
    PortRemovedKeys(m, db, port);
    RemovePreserves(m, db, OidKey(PORT, port));
    GroupStored(m, db, port);
    if o in Group(db, port) {
      GroupGone(m, db, port, o);
    } else if o in db.refs {
      OthersKeepCount(m, db, port, o);
    }
  }

  /** A related object `g` fails its checks because it is gone, and every related object
      visited before it passes. */
  ghost predicate FirstOffenderGone(m: Meta, db: Db, port: Oid, g: Oid)
    requires port in db.related
  {
    && g in db.related[port] && g !in db.refs
    && forall h <- db.related[port] :: h as nat < g as nat ==> RelatedOk(m, db.refs, db.store, h)
  }

  /** The three refusals and the acceptance of a port with related objects: it can be
      removed exactly when it and all of them are unreferenced and in default state; and a
      related object that was removed on its own makes the check throw exactly when it is
      the first offender. */
  lemma PortRemovable(m: Meta, db: Db, port: Oid)
    requires DomainAgrees(m, db) && m.typeOf(port) == PORT && port in db.refs && port in db.related
    ensures RemoveStatus(m, db, OidKey(PORT, port)) == Success <==>
              forall g <- Group(db, port) :: RelatedOk(m, db.refs, db.store, g)
    ensures RemoveStatus(m, db, OidKey(PORT, port)) == Fatal <==>
              && RelatedOk(m, db.refs, db.store, port)
              && exists g <- db.related[port] :: FirstOffenderGone(m, db, port, g)
    ensures RemoveStatus(m, db, OidKey(PORT, port)) == InvalidParameter <==> db.refs[port] != 0
  {
    assert KeyOf(m, port) == OidKey(PORT, port) && OidKey(PORT, port) in db.store && port != NULL_OID;
    assert RemoveStatus(m, db, OidKey(PORT, port)) ==
      if db.refs[port] != 0 then InvalidParameter
      else PortStatus(m, db.refs, db.store, db.related, port);
    PortAcceptedExactly(m, db, port);
    PortThrowsExactly(m, db, port);
    assert port in Group(db, port);
    assert forall g <- Group(db, port) :: g == port || g in db.related[port];
    assert forall g <- db.related[port] :: g in Group(db, port);
  }

  lemma PortAcceptedExactly(m: Meta, db: Db, port: Oid)
    requires port in db.related
    ensures PortStatus(m, db.refs, db.store, db.related, port) == Success <==>
              InDefaultState(m, db.refs, db.store, port)
              && forall g <- db.related[port] :: RelatedOk(m, db.refs, db.store, g)
  {
    var bad := set r | r in db.related[port] && !RelatedOk(m, db.refs, db.store, r);
    if bad == {} {
      forall g | g in db.related[port] ensures RelatedOk(m, db.refs, db.store, g) {
        assert g !in bad;
      }
    } else {
      var b :| b in bad;
    }
  }

  lemma PortThrowsExactly(m: Meta, db: Db, port: Oid)
    requires port in db.related
    ensures PortStatus(m, db.refs, db.store, db.related, port) == Fatal <==>
              InDefaultState(m, db.refs, db.store, port)
              && exists g <- db.related[port] :: FirstOffenderGone(m, db, port, g)
  {
    var bad := set r | r in db.related[port] && !RelatedOk(m, db.refs, db.store, r);
    if bad != {} {
      var first := FirstOf(bad);
      forall g | g in db.related[port] && FirstOffenderGone(m, db, port, g) ensures g == first {
        assert g in bad;
      }
      if first !in db.refs {
        forall h | h in db.related[port] && h as nat < first as nat ensures RelatedOk(m, db.refs, db.store, h) {
          assert h !in bad;
        }
        assert FirstOffenderGone(m, db, port, first);
      }
    } else {
      forall g | g in db.related[port] ensures !FirstOffenderGone(m, db, port, g) {
        assert g !in bad;
      }
    }
  }

  lemma FirstOf(oids: set<Oid>) returns (first: Oid)
    requires oids != {}
    ensures first in oids && Min(set o: Oid | o in oids :: o as nat) == first as nat
    ensures forall o <- oids :: first as nat <= o as nat
  {
    var nats := set o: Oid | o in oids :: o as nat;
    var some :| some in oids;
    assert some as nat in nats;
    first := Min(nats) as Oid;
    forall o | o in oids ensures first as nat <= o as nat {
      assert o as nat in nats;
    }
  }

  // ---------------------------------------------------------- consolidated flush

  /** Consolidated flush: exactly the matching entries go, every other object keeps its
      attributes, and each count falls by the number of occurrences that went. */
  lemma FlushExact(db: Db, bvId: Oid, attrs: seq<Attribute>, k: MetaKey, o: Oid)
    requires Conserved(db)
    ensures var db' := Erased(db, Flushable(db.store, bvId, attrs));
            && (k in db'.store <==> k in db.store && !FlushMatches(db.store, bvId, attrs, k))
            && (k in db'.store ==> db'.store[k] == db.store[k])
            && (k in db.store && !k.FdbKey? ==> k in db'.store)
            && db'.refs.Keys == db.refs.Keys
            && (o in db.refs ==>
                  db'.refs[o] == db.refs[o] - StoreBag(Restrict(db.store, Flushable(db.store, bvId, attrs)))[o]
                  && db'.refs[o] == StoreBag(db'.store)[o])
  {
    var ks := Flushable(db.store, bvId, attrs);
    EraseConserves(db, ks);
    assert OidsOf(ks) == {};
    assert Erased(db, ks).refs == Subtracted(db.refs, StoreBag(Restrict(db.store, ks)));
  }
}
