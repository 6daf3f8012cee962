/** Where the metadata database falls short of what its checks suggest, each time with the
    exact condition under which it does not. */
module MetaFindings {
  import opened Sai
  import opened MetaState
  import opened RefBags
  import opened MetaInvariant
  import opened MetaRuns
  import opened ValueText
  import IpMask

  // ------------------------------------------------ prefixes that do not print

  const HOLED_MASK: Bytes4 := [255, 0, 255, 0]
  const HOLED_PREFIX: Value := Plain(PrefixV(Prefix4([10, 0, 0, 0], HOLED_MASK)))

  predicate Holed(mask: seq<Byte>) {
    exists i, j :: 0 <= i < j < 8 * |mask| && !IpMask.Bit(mask, i) && IpMask.Bit(mask, j)
  }

  /** What validation leaves unchecked: the mask of a prefix and the families of an
      address list. */
  predicate Unprintable(v: Value) {
    match v
    case Plain(PrefixV(Prefix4(_, mask))) => Holed(mask)
    case Plain(PrefixV(Prefix6(_, mask))) => Holed(mask)
    case Plain(AddressListV(ips)) => exists ip <- ips.Elements() :: ip.OtherFamily?
    case _ => false
  }

  /** A mask with a hole passes create and set, and printing it for the copy the post step
      stores then throws. */
  lemma HoledMaskAccepted(c: Context, m: Meta, refs: References, t: ObjectType, md: AttrMeta, sw: Oid,
                          creating: bool)
    requires ContextLawful(c) && md.valueType == PlainT(PrefixT) && !md.isEnum
    ensures ValueStatus(m, refs, t, md, sw, HOLED_PREFIX, creating) == Success
    ensures Serialize(c, md.valueType, HOLED_PREFIX) == None
  {
    assert !IpMask.Bit(HOLED_MASK, 8) && IpMask.Bit(HOLED_MASK, 16);
    AcceptedPrints(c, m, refs, t, md, sw, HOLED_PREFIX, creating);
  }

  /** Printing an accepted value throws exactly when its mask has a hole or an address of
      its list is neither IPv4 nor IPv6. */
  lemma AcceptedPrints(c: Context, m: Meta, refs: References, t: ObjectType, md: AttrMeta, sw: Oid, v: Value,
                       creating: bool)
    requires ContextLawful(c)
    requires WellTyped(md.valueType, v) && ValueStatus(m, refs, t, md, sw, v, creating) == Success
    ensures Serialize(c, md.valueType, v) == None <==> Unprintable(v)
  {
    AcceptedParsed(m, refs, t, md, sw, v, creating);
    ValueRoundTrip(c, md.valueType, v);
    match v {
      case Plain(PrefixV(Prefix4(_, mask))) => HoledExactly(mask);
      case Plain(PrefixV(Prefix6(_, mask))) => HoledExactly(mask);
      case _ =>
    }
  }

  /** Every accepted value is of a type the printer knows. */
  lemma AcceptedParsed(m: Meta, refs: References, t: ObjectType, md: AttrMeta, sw: Oid, v: Value, creating: bool)
    requires WellTyped(md.valueType, v) && ValueStatus(m, refs, t, md, sw, v, creating) == Success
    ensures Parsed(md.valueType)
  {
  }

  lemma HoledExactly(mask: seq<Byte>)
    ensures Holed(mask) <==> !IpMask.Contiguous(mask)
  {
  }

  // --------------------------------------------------- object lists of two types

  predicate Uniform(m: Meta, items: seq<Oid>) {
    forall i, j :: 0 <= i < j < |items| ==> m.typeOf(items[i]) == m.typeOf(items[j])
  }

  lemma {:induction false} LastTypeOf(m: Meta, items: seq<Oid>)
    requires items != [] && NULL_OID !in items
    ensures LastType(m, items) == m.typeOf(items[|items| - 1])
  {
  }

  /** The element types of an accepted list without nulls agree from the second element on;
      the first two are never compared, so the list is of one type exactly when they agree. */
  lemma ListUniform(m: Meta, refs: References, md: AttrMeta, sw: Oid, items: seq<Oid>)
    requires OidListStatus(m, refs, md, sw, Items(items)) == Success && NULL_OID !in items
    ensures Uniform(m, items) <==> |items| < 2 || m.typeOf(items[0]) == m.typeOf(items[1])
  {
    forall i | 1 <= i < |items| ensures m.typeOf(items[i]) == m.typeOf(items[1]) {
      ListTail(m, refs, md, sw, items, i);
    }
  }

  lemma {:induction false} ListTail(m: Meta, refs: References, md: AttrMeta, sw: Oid, items: seq<Oid>, i: nat)
    requires OidListStatus(m, refs, md, sw, Items(items)) == Success && NULL_OID !in items
    requires 1 <= i < |items|
    ensures m.typeOf(items[i]) == m.typeOf(items[1])
  {
    if i > 1 {
      ListTail(m, refs, md, sw, items, i - 1);
      assert items[i] in items && items[i - 1] in items;
      assert ItemOk(m, refs, md, sw, items, i);
      LastTypeOf(m, items[..i]);
    }
  }

  /** Two elements of different allowed types on one switch are accepted. */
  lemma MixedPairAccepted(m: Meta, refs: References, md: AttrMeta, sw: Oid, a: Oid, b: Oid)
    requires a != b && a != NULL_OID && b != NULL_OID && m.typeOf(a) != m.typeOf(b)
    requires m.typeOf(a) in md.allowed && m.typeOf(b) in md.allowed
    requires NULL_TYPE !in md.allowed && a in refs && b in refs && sw in refs
    requires m.switchOf(a) == sw && m.switchOf(b) == sw
    ensures OidListStatus(m, refs, md, sw, Items([a, b])) == Success && !Uniform(m, [a, b])
  {
    var items := [a, b];
    assert ItemOk(m, refs, md, sw, items, 0);
    assert ItemOk(m, refs, md, sw, items, 1);
    assert m.typeOf(items[0]) != m.typeOf(items[1]);
  }

  // ---------------------------------------------------- learned entries dropped

  /** A learned notification whose only attribute is the entry type is completed with a
      second entry type, so its entry is never stored. */
  lemma LearnedTypeOnlyDropped(m: Meta, db: Db, key: MetaKey, v: Value, garbage: bool)
    requires key.FdbKey?
    requires Typed(m, FDB_ENTRY, [Attribute(FDB_TYPE, v)])
    requires Typed(m, FDB_ENTRY, Completed([Attribute(FDB_TYPE, v)]))
    ensures AfterNotice(m, db, key, Learned, [Attribute(FDB_TYPE, v)], garbage) == db
  {
    var attrs := Completed([Attribute(FDB_TYPE, v)]);
    assert |attrs| == 2 && attrs[0].id == attrs[1].id;
    if CreateStatus(m, db, key, key.switchId, attrs) == Success {
      AcceptedDistinct(m, db, key, key.switchId, attrs);
      assert false;
    }
  }

  /** Create never accepts a list that names an attribute twice. */
  lemma AcceptedDistinct(m: Meta, db: Db, key: MetaKey, sw: Oid, attrs: seq<Attribute>)
    requires Typed(m, key.Type(), attrs) && CreateStatus(m, db, key, sw, attrs) == Success
    ensures Distinct(attrs)
  {
    var at := if key.Type() == SWITCH then NULL_OID else SwitchFor(key, sw);
    AttrsAccepted(m, db.refs, key.Type(), at, attrs, 0);
    forall i, j | 0 <= i < j < |attrs| ensures attrs[i].id != attrs[j].id {
      assert AttrCreateStatus(m, db.refs, key.Type(), at, attrs, j) == Success;
    }
  }

  // -------------------------------------------------------------- switch removal

  /** A validated removal of a switch that something refers to empties the database at once,
      whatever the vendor answers; of one nobody refers to, it leaves everything, the switch
      included. */
  lemma SwitchRemoval(m: Meta, db: Db, key: MetaKey, vendorOk: bool)
    requires Inv(m, db) && key.OidKey? && key.objectType == SWITCH && key in db.store
    requires EntryStatus(m, db.store, key, OtherCall) == Success && RemoveStatus(m, db, key) == Success
    ensures Apply(m, db, Remove(key, vendorOk))
         == if StoreBag(db.store)[key.oid] > 0 then EMPTY else db
  {
    assert key == KeyOf(m, key.oid);
    assert db.refs[key.oid] == StoreBag(db.store)[key.oid];
  }
}
