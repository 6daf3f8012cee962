/** The invariant of the metadata database, and what accepting validation says of the
    values it accepts. `MetaSteps` proves that each post step keeps the invariant and
    `MetaRuns` that every reachable state satisfies it. */
module MetaInvariant {
  import opened Sai
  import opened Stored
  import opened MetaState
  import opened RefBags

  /** The switch an object lies on. */
  function SwitchOfKey(m: Meta, k: MetaKey): Oid { if k.OidKey? then m.switchOf(k.oid) else k.switchId }

  /** The counted oids are exactly the oid-typed keys of the store. */
  ghost predicate DomainAgrees(m: Meta, db: Db) {
    && NULL_OID !in db.refs
    && (forall o <- db.refs :: KeyOf(m, o) in db.store)
    && (forall k <- db.store :: k.OidKey? ==> k.oid in db.refs && k == KeyOf(m, k.oid))
  }

  /** Every count is the number of occurrences of its oid in the store. */
  ghost predicate Conserved(db: Db) {
    forall o <- db.refs :: db.refs[o] == StoreBag(db.store)[o]
  }

  predicate RefAt(m: Meta, refs: References, sw: Oid, o: Oid) {
    o == NULL_OID || (o in refs && m.switchOf(o) == sw)
  }

  ghost predicate BagOk(m: Meta, refs: References, k: MetaKey, a: Attrs) {
    forall o <- ObjectBag(k, a) :: RefAt(m, refs, SwitchOfKey(m, k), o)
  }

  /** Every non-null oid held anywhere is counted, so none dangles, and lies on the switch
      of the object that holds it. */
  ghost predicate Contained(m: Meta, db: Db) {
    forall k <- db.store :: BagOk(m, db.refs, k, db.store[k])
  }

  /** The value types that create, set and remove all handle. */
  predicate Supported(vt: ValueType) {
    match vt
    case PlainT(VlanListT) => false
    case PlainT(CapabilityT) => false
    case PlainT(NumberListT(k)) => !Is64(k)
    case PlainT(RangeT(k)) => k in {U32, S32}
    case PlainT(_) => true
    case _ =>
      match vt.t
      case BoolT | MacT | Ip4T | Ip6T | OidT | OidListT => true
      case NumberT(k) => !Is64(k)
      case _ => false
  }

  ghost predicate StoredOk(m: Meta, t: ObjectType, id: AttrId, v: Value) {
    && m.Has(t, id) && !m.Of(t, id).readOnly
    && Supported(m.Of(t, id).valueType) && WellTyped(m.Of(t, id).valueType, v)
  }

  ghost predicate ObjectOk(m: Meta, t: ObjectType, a: Attrs) {
    forall id <- a :: StoredOk(m, t, id, a[id])
  }

  ghost predicate AttrsOk(m: Meta, db: Db) {
    forall k <- db.store :: ObjectOk(m, k.Type(), db.store[k])
  }

  /** Every index entry is the key text recomputed from the stored attributes, an object
      without an entry has no key attribute unless its create was interrupted, and non-empty
      entries are unique. */
  ghost predicate KeysAgree(m: Meta, db: Db) {
    && db.keys.Keys <= db.store.Keys && db.keys.Keys !! db.interrupted
    && (forall k <- db.store :: k !in db.interrupted ==> KeyAgrees(m, db.keys, k, db.store[k]))
    && KeysUnique(db.keys)
  }

  ghost predicate KeyAgrees(m: Meta, keys: map<MetaKey, string>, k: MetaKey, a: Attrs) {
    (if k in keys then keys[k] else "") == KeyText(m, k.Type(), a)
  }

  ghost predicate KeysUnique(keys: map<MetaKey, string>) {
    forall j, k :: j in keys && k in keys && j != k && keys[j] != "" ==> keys[j] != keys[k]
  }

  ghost predicate IsUnconditional(m: Meta, t: ObjectType, id: AttrId) {
    && m.Has(t, id) && m.Of(t, id).mandatory && !m.Of(t, id).conditional
    && !IsMandatoryException(t, id)
  }

  ghost predicate HasMandatory(m: Meta, t: ObjectType, a: Attrs) {
    forall id :: IsUnconditional(m, t, id) ==> id in a
  }

  /** Created objects keep their mandatory attributes, every entry was created or
      interrupted, and fdb entries are never interrupted. */
  ghost predicate MandatoryKept(m: Meta, db: Db) {
    && db.created <= db.store.Keys && db.interrupted <= db.store.Keys
    && (forall k <- db.store :: !k.OidKey? ==> k in db.created || k in db.interrupted)
    && (forall k <- db.interrupted :: !k.FdbKey?)
    && (forall k <- db.created :: HasMandatory(m, k.Type(), db.store[k]))
  }

  /** Related objects are oids of neither port nor switch type. */
  ghost predicate RelatedSane(m: Meta, related: map<Oid, set<Oid>>) {
    forall p <- related :: forall o <- related[p] ::
      o != NULL_OID && m.typeOf(o) !in {NULL_TYPE, PORT, SWITCH}
  }

  ghost predicate Inv(m: Meta, db: Db) {
    && DomainAgrees(m, db) && Conserved(db) && Contained(m, db)
    && AttrsOk(m, db) && KeysAgree(m, db) && MandatoryKept(m, db) && RelatedSane(m, db.related)
  }

  lemma EmptyInv(m: Meta)
    ensures Inv(m, EMPTY)
  {
    EmptyStoreBag();
  }

  /** An oid that is not counted occurs nowhere. */
  lemma UncountedUnused(m: Meta, db: Db, o: Oid)
    requires Contained(m, db) && o !in db.refs && o != NULL_OID
    ensures StoreBag(db.store)[o] == 0
  {
    InStoreBag(db.store, o);
  }

  // ---------------------------------------------------- what validation gives

  /** Null, or counted and on a counted switch `sw`. */
  predicate RefOk(m: Meta, refs: References, sw: Oid, o: Oid) {
    o == NULL_OID || (o in refs && m.switchOf(o) == sw && sw in refs)
  }

  lemma OidListAccepted(m: Meta, refs: References, md: AttrMeta, sw: Oid, l: List<Oid>)
    requires OidListStatus(m, refs, md, sw, l) == Success
    ensures forall o <- l.Elements() :: RefOk(m, refs, sw, o)
  {
    if l.Items? {
      forall o | o in l.items ensures RefOk(m, refs, sw, o) {
        var i: nat :| i < |l.items| && l.items[i] == o;
        assert ItemOk(m, refs, md, sw, l.items, i);
      }
    }
  }

  /** An accepted value holds only null oids and counted oids of the right switch, and its
      type is one the post steps handle. */
  lemma ValueAccepted(m: Meta, refs: References, t: ObjectType, md: AttrMeta, sw: Oid, v: Value,
                      creating: bool)
    requires WellTyped(md.valueType, v) && ValueStatus(m, refs, t, md, sw, v, creating) == Success
    requires md.valueType.t.CapabilityT? ==> md.readOnly
    ensures forall o <- Refs(v) :: RefOk(m, refs, sw, o)
    ensures !md.readOnly ==> Supported(md.valueType)
  {
    if md.valueType.t.OidT? && OidListStatus(m, refs, md, sw, Items([v.data.oid])) == Success {
      OidListAccepted(m, refs, md, sw, Items([v.data.oid]));
    }
    if md.valueType.t.OidListT? && OidListStatus(m, refs, md, sw, v.data.oids) == Success {
      OidListAccepted(m, refs, md, sw, v.data.oids);
    }
  }

  lemma {:induction false} AttrsAccepted(m: Meta, refs: References, t: ObjectType, sw: Oid,
                                         attrs: seq<Attribute>, i: nat)
    requires i <= |attrs| && Typed(m, t, attrs)
    requires AttrsStatus(m, refs, t, sw, attrs, i) == Success
    ensures forall j: nat :: i <= j < |attrs| ==> AttrCreateStatus(m, refs, t, sw, attrs, j) == Success
    decreases |attrs| - i
  {
    if i < |attrs| {
      AttrsAccepted(m, refs, t, sw, attrs, i + 1);
    }
  }

  /** Everything the post step of create relies on. */
  ghost predicate Accepted(m: Meta, refs: References, t: ObjectType, sw: Oid, attrs: seq<Attribute>) {
    && Distinct(attrs)
    && (forall a <- attrs :: StoredOk(m, t, a.id, a.value))
    && (forall a, o :: a in attrs && o in Refs(a.value) ==> RefOk(m, refs, sw, o))
  }

  lemma AttrsStatusAccepts(m: Meta, refs: References, t: ObjectType, sw: Oid, attrs: seq<Attribute>)
    requires Lawful(m) && Typed(m, t, attrs)
    requires AttrsStatus(m, refs, t, sw, attrs, 0) == Success
    ensures Accepted(m, refs, t, sw, attrs)
  {
    AttrsAccepted(m, refs, t, sw, attrs, 0);
    assert Distinct(attrs) by {
      forall i, j | 0 <= i < j < |attrs| ensures attrs[i].id != attrs[j].id {
        assert AttrCreateStatus(m, refs, t, sw, attrs, j) == Success;
      }
    }
    forall a | a in attrs
      ensures StoredOk(m, t, a.id, a.value)
      ensures forall o <- Refs(a.value) :: RefOk(m, refs, sw, o)
    {
      var i: nat :| i < |attrs| && attrs[i] == a;
      assert AttrCreateStatus(m, refs, t, sw, attrs, i) == Success;
      assert AttrLawful(m, t, a.id);
      ValueAccepted(m, refs, t, m.Of(t, a.id), sw, a.value, true);
    }
  }
}
