/** The metadata database as a value: its four maps, the status every validator returns
    and the state every post step leaves (sai_meta.cpp). `MetaDb` is the class whose
    methods are proved against these definitions; `MetaRuns` proves what every reachable
    state satisfies.

    Object keys are structured here; the C++ store indexes them by their printed form,
    and `KeyName` proves that printing is injective. */
module MetaState {
  import opened Sai
  import opened Stored
  import Bags
  import CharData
  import IpMask
  import NumberText

  const MAX_LIST_COUNT: nat := 0x1000
  const MAXIMUM_VLAN_NUMBER: nat := 4094
  const HOSTIF_NAME_SIZE: nat := 16

  /** `Fatal` stands for an exception (SWSS_LOG_THROW). */
  datatype Status =
    | Success | InvalidParameter | Failure | ItemAlreadyExists | MandatoryMissing | Fatal

  type Attrs = map<AttrId, Value>
  type References = map<Oid, int>
  type Store = map<MetaKey, Attrs>

  /** The last two are history: the objects still stored that a validated create has made,
      and those whose create an exception interrupted in its post step. */
  datatype Db = Db(
    refs: References, store: Store, keys: map<MetaKey, string>,
    related: map<Oid, set<Oid>>, created: set<MetaKey>, interrupted: set<MetaKey>)

  const EMPTY: Db := Db(map[], map[], map[], map[], {}, {})

  // ------------------------------------------------------- reference counts

  ghost function RefMap(a: Attrs): map<AttrId, multiset<Oid>> {
    map id | id in a :: multiset(Refs(a[id]))
  }

  ghost function AttrBag(a: Attrs): multiset<Oid> { Bags.Sum(RefMap(a)) }

  /** Every occurrence of an oid held by one object: its attributes and, for an entry,
      the oid members of its key. */
  ghost function ObjectBag(k: MetaKey, a: Attrs): multiset<Oid> {
    multiset(k.Members()) + AttrBag(a)
  }

  ghost function BagMap(s: Store): map<MetaKey, multiset<Oid>> {
    map k | k in s :: ObjectBag(k, s[k])
  }

  ghost function StoreBag(s: Store): multiset<Oid> { Bags.Sum(BagMap(s)) }

  function Added(refs: References, bag: multiset<Oid>): References {
    map o | o in refs :: refs[o] + bag[o]
  }

  function Subtracted(refs: References, bag: multiset<Oid>): References {
    map o | o in refs :: refs[o] - bag[o]
  }

  function IdSet(attrs: seq<Attribute>): set<AttrId> { set a | a in attrs :: a.id }

  /** The value the list gives an attribute: a later one replaces an earlier one. */
  function LastValue(attrs: seq<Attribute>, id: AttrId): Value
    requires id in IdSet(attrs)
  {
    var last := attrs[|attrs| - 1];
    if last.id == id then last.value
    else
      assert attrs == attrs[..|attrs| - 1] + [last];
      LastValue(attrs[..|attrs| - 1], id)
  }

  /** The attributes an object holds once the list has been stored. */
  function StoredAttrs(attrs: seq<Attribute>): Attrs {
    map id | id in IdSet(attrs) :: Canon(LastValue(attrs, id))
  }

  // ------------------------------------------------------------- validation

  function Find(attrs: seq<Attribute>, id: AttrId): Option<Value> {
    if attrs == [] then None
    else if attrs[0].id == id then Some(attrs[0].value)
    else Find(attrs[1..], id)
  }

  predicate Typed(m: Meta, t: ObjectType, attrs: seq<Attribute>) {
    forall a <- attrs :: m.Has(t, a.id) ==> WellTyped(m.Of(t, a.id).valueType, a.value)
  }

  function LastType(m: Meta, items: seq<Oid>): ObjectType {
    if items == [] then NULL_TYPE
    else if items[|items| - 1] != NULL_OID then m.typeOf(items[|items| - 1])
    else LastType(m, items[..|items| - 1])
  }

  /** Element `i` of an object list is acceptable: null only where allowed, otherwise a
      new oid of an allowed type that exists and lies on switch `sw`. Types are compared
      only from the third element on, with the last non-null element before it. */
  predicate ItemOk(m: Meta, refs: References, md: AttrMeta, sw: Oid, items: seq<Oid>, i: nat)
    requires i < |items|
  {
    var oid := items[i];
    if oid == NULL_OID then md.allowNull
    else
      && oid !in items[..i]
      && m.typeOf(oid) != NULL_TYPE
      && m.typeOf(oid) in md.allowed
      && oid in refs
      && (i > 1 ==> LastType(m, items[..i]) == m.typeOf(oid))
      && m.switchOf(oid) in refs
      && m.switchOf(oid) == sw
  }

  function OidListStatus(m: Meta, refs: References, md: AttrMeta, sw: Oid, l: List<Oid>): Status {
    if l.Count() > MAX_LIST_COUNT then InvalidParameter
    else if l.Null? then (if l.count == 0 then Success else InvalidParameter)
    else if forall i: nat :: i < |l.items| ==> ItemOk(m, refs, md, sw, l.items, i) then Success
    else InvalidParameter
  }

  /** `meta_genetic_validation_list` */
  function ListStatus<T>(l: List<T>): Status {
    if l.Count() > MAX_LIST_COUNT then InvalidParameter
    else if l.Items? then (if l.items == [] then InvalidParameter else Success)
    else if l.count == 0 then Success
    else InvalidParameter
  }

  predicate Printable(c: Byte) { 0x20 <= c <= 0x7e }

  predicate NameOk(text: Text32) {
    var name := CharData.CString(text[..HOSTIF_NAME_SIZE]);
    0 < |name| < HOSTIF_NAME_SIZE && forall c <- name :: Printable(c)
  }

  predicate Is64(k: NumKind) { k == U64 || k == S64 }

  function PlainStatus(m: Meta, refs: References, t: ObjectType, md: AttrMeta, sw: Oid,
                       d: Data, creating: bool): Status
    requires DataTyped(md.valueType.t, d)
  {
    match md.valueType.t
    case TextT => if creating then (if NameOk(d.text) then Success else InvalidParameter) else Fatal
    case AddressT => if d.ip.OtherFamily? then InvalidParameter else Success
    case PrefixT => if d.prefix.OtherPrefix? then InvalidParameter else Success
    case OidT =>
      if !creating && t == SCHEDULER_GROUP && md.id == SCHEDULER_GROUP_PROFILE && d.oid == NULL_OID
      then Success
      else OidListStatus(m, refs, md, sw, Items([d.oid]))
    case OidListT => OidListStatus(m, refs, md, sw, d.oids)
    case NumberListT(k) => if Is64(k) then Fatal else ListStatus(d.numbers)
    case AddressListT => ListStatus(d.ips)
    case RangeT(k) =>
      if k !in {U32, S32} then Fatal else if d.lo <= d.hi then Success else InvalidParameter
    case VlanListT => Fatal
    case CapabilityT => if creating then Fatal else ListStatus(d.actions)
    case _ => Success
  }

  function AclStatus(m: Meta, refs: References, md: AttrMeta, sw: Oid, enable: bool, d: Data): Status
    requires DataTyped(md.valueType.t, d)
  {
    match md.valueType.t
    case NumberT(k) => if Is64(k) then Fatal else Success
    case BoolT | MacT | Ip4T | Ip6T => Success
    case OidT => if !enable then Success else OidListStatus(m, refs, md, sw, Items([d.oid]))
    case OidListT => if !enable then Success else OidListStatus(m, refs, md, sw, d.oids)
    case _ => Fatal
  }

  predicate AllowedEnum(md: AttrMeta, n: int) { md.enums.Some? && n in md.enums.value.values }

  /** The value switch of create and set, followed by the enum check. */
  function ValueStatus(m: Meta, refs: References, t: ObjectType, md: AttrMeta, sw: Oid,
                       v: Value, creating: bool): Status
    requires WellTyped(md.valueType, v)
  {
    var s := match v
      case Plain(d) => PlainStatus(m, refs, t, md, sw, d, creating)
      case Field(enable, d, _) => AclStatus(m, refs, md, sw, enable, d)
      case Action(enable, d) => AclStatus(m, refs, md, sw, enable, d);
    if s != Success then s
    else if md.isEnum && (!v.data.NumberV? || !AllowedEnum(md, v.data.n)) then InvalidParameter
    else Success
  }

  function AttrCreateStatus(m: Meta, refs: References, t: ObjectType, sw: Oid,
                            attrs: seq<Attribute>, i: nat): Status
    requires i < |attrs| && Typed(m, t, attrs)
  {
    var a := attrs[i];
    if !m.Has(t, a.id) then Failure
    else if exists j: nat :: j < i && attrs[j].id == a.id then InvalidParameter
    else if m.Of(t, a.id).readOnly then InvalidParameter
    else ValueStatus(m, refs, t, m.Of(t, a.id), sw, a.value, true)
  }

  /** The status of the first rejected attribute from `i` on. */
  function AttrsStatus(m: Meta, refs: References, t: ObjectType, sw: Oid,
                       attrs: seq<Attribute>, i: nat): Status
    requires i <= |attrs| && Typed(m, t, attrs)
    decreases |attrs| - i
  {
    if i == |attrs| then Success
    else
      var s := AttrCreateStatus(m, refs, t, sw, attrs, i);
      if s != Success then s else AttrsStatus(m, refs, t, sw, attrs, i + 1)
  }

  /** `meta_extract_switch_id` */
  function SwitchFor(key: MetaKey, sw: Oid): Oid { if key.OidKey? then sw else key.switchId }

  predicate SwitchOk(m: Meta, refs: References, store: Store, sw: Oid) {
    && sw != NULL_OID && m.typeOf(sw) == SWITCH
    && OidKey(SWITCH, sw) in store && sw in refs
  }

  predicate MemberOk(m: Meta, refs: References, key: MetaKey, sw: Oid, oid: Oid, allowed: set<ObjectType>) {
    if oid == NULL_OID then key.FdbKey?
    else
      && oid in refs && m.typeOf(oid) in allowed
      && m.switchOf(oid) in refs && m.switchOf(oid) == sw
  }

  /** `meta_generic_validate_non_object_on_create` */
  predicate MembersOk(m: Meta, refs: References, key: MetaKey, sw: Oid) {
    key.OidKey?
    || (MemberOk(m, refs, key, sw, key.Members()[0], {SWITCH})
        && MemberOk(m, refs, key, sw, key.Members()[1], key.MemberTypes()))
  }

  function ThresholdMode(m: Meta, store: Store, pool: Oid): int
    requires m.Has(BUFFER_POOL, BUFFER_POOL_THRESHOLD_MODE)
  {
    var k := OidKey(BUFFER_POOL, pool);
    var fallback := m.Of(BUFFER_POOL, BUFFER_POOL_THRESHOLD_MODE).default;
    var v := if k in store && BUFFER_POOL_THRESHOLD_MODE in store[k]
             then Some(store[k][BUFFER_POOL_THRESHOLD_MODE]) else fallback;
    if v.Some? && v.value.data.NumberV? then v.value.data.n else THRESHOLD_STATIC
  }

  /** A missing mandatory attribute that create lets pass. */
  predicate Excused(m: Meta, store: Store, t: ObjectType, id: AttrId, attrs: seq<Attribute>) {
    if t == BUFFER_PROFILE && id in {BUFFER_PROFILE_DYNAMIC_TH, BUFFER_PROFILE_STATIC_TH} then
      var pool := Find(attrs, BUFFER_PROFILE_POOL);
      && pool.Some? && pool.value.data.OidV?
      && (pool.value.data.oid == NULL_OID
          || (m.Has(BUFFER_POOL, BUFFER_POOL_THRESHOLD_MODE)
              && var mode := ThresholdMode(m, store, pool.value.data.oid);
                 && !(mode == THRESHOLD_DYNAMIC && id == BUFFER_PROFILE_DYNAMIC_TH)
                 && !(mode == THRESHOLD_STATIC && id == BUFFER_PROFILE_STATIC_TH)))
    else t == ACL_TABLE && id == ACL_TABLE_RANGE_TYPE
  }

  predicate Present(attrs: seq<Attribute>, id: AttrId) { id in IdSet(attrs) }

  predicate MandatoryOk(m: Meta, store: Store, t: ObjectType, attrs: seq<Attribute>, id: AttrId) {
    m.Has(t, id) && m.Of(t, id).mandatory && !m.Of(t, id).conditional ==>
      Present(attrs, id) || Excused(m, store, t, id, attrs)
  }

  /** A condition compares the attribute passed, or its default when none was passed. */
  predicate ConditionHolds(m: Meta, t: ObjectType, attrs: seq<Attribute>, c: Condition) {
    m.Has(t, c.attrId)
    && var passed := Find(attrs, c.attrId);
       var v := if passed.Some? then passed else m.Of(t, c.attrId).default;
       v.Some?
       && match v.value.data
          case BoolV(b) => c.flag == b
          case NumberV(n) => c.number == n
          case _ => false
  }

  predicate Required(m: Meta, t: ObjectType, attrs: seq<Attribute>, md: AttrMeta) {
    exists c <- md.conditions :: ConditionHolds(m, t, attrs, c)
  }

  function ConditionalStatus(m: Meta, t: ObjectType, attrs: seq<Attribute>, id: AttrId): Status {
    if !m.Has(t, id) || !m.Of(t, id).conditional then Success
    else if Required(m, t, attrs, m.Of(t, id)) then
      (if Present(attrs, id) then Success else MandatoryMissing)
    else if Present(attrs, id) then InvalidParameter
    else Success
  }

  function ConditionalsStatus(m: Meta, t: ObjectType, attrs: seq<Attribute>, ids: seq<AttrId>): Status {
    if ids == [] then Success
    else
      var s := ConditionalStatus(m, t, attrs, ids[0]);
      if s != Success then s else ConditionalsStatus(m, t, attrs, ids[1..])
  }

  // ------------------------------------------------------------- key texts

  function Joined(numbers: seq<int>): string {
    if numbers == [] then ""
    else if |numbers| == 1 then NumberText.Decimal(numbers[0])
    else Joined(numbers[..|numbers| - 1]) + "," + NumberText.Decimal(numbers[|numbers| - 1])
  }

  /** One key attribute in the text that `construct_key` builds. */
  function KeyPart(md: AttrMeta, v: Value): string {
    md.name + ":" +
    match v.data
    case NumberV(n) => NumberText.Decimal(n)
    case OidV(oid) => "oid:" + NumberText.Hex(oid)
    case NumberListV(numbers) => Joined(numbers.Elements())
    case _ => ""
  }

  predicate IsKey(m: Meta, t: ObjectType, id: AttrId) { m.Has(t, id) && m.Of(t, id).key }

  function KeyParts(m: Meta, t: ObjectType, a: Attrs): map<AttrId, string> {
    map id | id in a && IsKey(m, t, id) :: KeyPart(m.Of(t, id), a[id])
  }

  ghost predicate IsMin(s: set<nat>, x: nat) { x in s && forall y <- s :: x <= y }

  lemma {:induction false} MinExists(s: set<nat>) returns (x: nat)
    requires s != {}
    ensures IsMin(s, x)
  {
    x :| x in s;
    if s - {x} != {} {
      var z := MinExists(s - {x});
      assert forall y <- s :: y == x || y in s - {x};
      if z < x {
        x := z;
      }
    } else {
      assert forall y <- s :: y == x || y in s - {x};
    }
  }

  ghost function Min(s: set<nat>): (x: nat)
    requires s != {}
    ensures IsMin(s, x)
  {
    assert exists x :: IsMin(s, x) by {
      var x := MinExists(s);
    }
    var x :| IsMin(s, x);
    x
  }

  /** The parts in ascending order of attribute id, each followed by a semicolon. */
  ghost function JoinParts(parts: map<AttrId, string>): string
    decreases |parts|
  {
    if parts == map[] then ""
    else
      var id := Min(parts.Keys);
      parts[id] + ";" + JoinParts(parts - {id})
  }

  /** `construct_key` over the attributes stored for an object. */
  ghost function KeyText(m: Meta, t: ObjectType, a: Attrs): string { JoinParts(KeyParts(m, t, a)) }

  /** Every value prints; of the others no stored copy can be made. */
  predicate AllStorable(attrs: seq<Attribute>) {
    forall i: nat :: i < |attrs| ==> Storable(attrs[i].value)
  }

  predicate HasKeys(m: Meta, t: ObjectType, attrs: seq<Attribute>) {
    exists i: nat :: i < |attrs| && IsKey(m, t, attrs[i].id)
  }

  // --------------------------------------------------------------- statuses

  /** `meta_generic_validation_create` */
  ghost function CreateStatus(m: Meta, db: Db, key: MetaKey, sw: Oid, attrs: seq<Attribute>): Status
    requires Typed(m, key.Type(), attrs)
  {
    var t := key.Type();
    var switchId := if t == SWITCH then NULL_OID else SwitchFor(key, sw);
    if |attrs| > MAX_LIST_COUNT then InvalidParameter
    else if t != SWITCH && !SwitchOk(m, db.refs, db.store, switchId) then InvalidParameter
    else if !MembersOk(m, db.refs, key, switchId) then InvalidParameter
    else
      var s := AttrsStatus(m, db.refs, t, switchId, attrs, 0);
      if s != Success then s else WholeListStatus(m, db, key, attrs)
  }

  /** The checks of create that look at the attribute list as a whole. */
  ghost function WholeListStatus(m: Meta, db: Db, key: MetaKey, attrs: seq<Attribute>): Status {
    var t := key.Type();
    if !key.OidKey? && key in db.store then ItemAlreadyExists
    else if m.Ids(t) == [] then Failure
    else if !AllMandatory(m, db.store, t, attrs) then MandatoryMissing
    else
      var c := ConditionalsStatus(m, t, attrs, m.Ids(t));
      if c != Success then c
      else if HasKeys(m, t, attrs) && KeyText(m, t, StoredAttrs(attrs)) in db.keys.Values
      then InvalidParameter
      else Success
  }

  predicate AllMandatory(m: Meta, store: Store, t: ObjectType, attrs: seq<Attribute>) {
    forall id <- m.Ids(t) :: MandatoryOk(m, store, t, attrs, id)
  }

  /** `meta_generic_validation_set` */
  function SetStatus(m: Meta, refs: References, store: Store, key: MetaKey, a: Attribute): Status
    requires Typed(m, key.Type(), [a])
  {
    var t := key.Type();
    if !m.Has(t, a.id) then Failure
    else
      assert a in [a];
      var md := m.Of(t, a.id);
      if md.readOnly || md.createOnly || md.key then InvalidParameter
      else if key.OidKey? && m.switchOf(key.oid) !in refs then InvalidParameter
      else
        var sw := if key.OidKey? then m.switchOf(key.oid) else key.switchId;
        var s := ValueStatus(m, refs, t, md, sw, a.value, false);
        if s != Success then s
        else if key !in store then InvalidParameter
        else if key.OidKey? && (m.typeOf(key.oid) == NULL_TYPE || m.typeOf(key.oid) != key.objectType)
        then InvalidParameter
        else Success
  }

  /** `meta_is_object_in_default_state` */
  predicate InDefaultState(m: Meta, refs: References, store: Store, oid: Oid) {
    var k := OidKey(m.typeOf(oid), oid);
    && oid in refs && k in store
    && forall id <- store[k] :: DefaultAttr(m, k.objectType, id, store[k][id])
  }

  predicate DefaultAttr(m: Meta, t: ObjectType, id: AttrId, v: Value) {
    m.Has(t, id) && !m.Of(t, id).readOnly && m.Of(t, id).allowed != {} ==>
      match v
      case Plain(OidV(oid)) => oid == NULL_OID
      case Plain(OidListV(oids)) => forall o <- oids.Elements() :: o == NULL_OID
      case _ => false
  }

  predicate RelatedOk(m: Meta, refs: References, store: Store, oid: Oid) {
    oid in refs && refs[oid] == 0 && InDefaultState(m, refs, store, oid)
  }

  /** `meta_port_remove_validation`, for a port whose count is zero. The related objects
      are visited in ascending order; one that is gone makes `object_reference_count`
      throw. */
  ghost function PortStatus(m: Meta, refs: References, store: Store,
                            related: map<Oid, set<Oid>>, port: Oid): Status
  {
    if port !in related then Success
    else if !InDefaultState(m, refs, store, port) then Failure
    else
      var bad := set o | o in related[port] && !RelatedOk(m, refs, store, o);
      if bad == {} then Success
      else if Min(set o: Oid | o in bad :: o as nat) !in refs then Fatal
      else Failure
  }

  /** `meta_generic_validation_remove`, after which a referenced switch has been reset. */
  ghost function RemoveStatus(m: Meta, db: Db, key: MetaKey): Status {
    if key !in db.store then InvalidParameter
    else if !key.OidKey? then Success
    else if key.oid == NULL_OID || m.typeOf(key.oid) == NULL_TYPE
            || m.typeOf(key.oid) != key.objectType || key.oid !in db.refs then InvalidParameter
    else if db.refs[key.oid] != 0 then (if key.objectType == SWITCH then Success else InvalidParameter)
    else if key.objectType == PORT then PortStatus(m, db.refs, db.store, db.related, key.oid)
    else Success
  }

  function GetAttrStatus(vt: ValueType, v: Value): Status
    requires WellTyped(vt, v)
  {
    match vt
    case PlainT(PrefixT) => Fatal
    case PlainT(OidListT) => ListStatus(v.data.oids)
    case PlainT(NumberListT(k)) => if Is64(k) then Fatal else ListStatus(v.data.numbers)
    case PlainT(AddressListT) => ListStatus(v.data.ips)
    case PlainT(VlanListT) =>
      var l := v.data.numbers;
      if (l.Items? && l.items == []) || (l.Null? && l.count != 0) || l.Count() > MAXIMUM_VLAN_NUMBER
      then InvalidParameter else Success
    case PlainT(CapabilityT) => ListStatus(v.data.actions)
    case PlainT(RangeT(k)) => if k in {U32, S32} then Success else Fatal
    case PlainT(_) => Success
    case FieldT(OidListT) => ListStatus(v.data.oids)
    case ActionT(OidListT) => ListStatus(v.data.oids)
    case _ =>
      match vt.t
      case BoolT | MacT | Ip4T | Ip6T | OidT => Success
      case NumberT(k) => if Is64(k) then Fatal else Success
      case _ => Fatal
  }

  /** The value types `meta_generic_validation_post_get` handles; on others it throws. */
  predicate GetHandled(vt: ValueType) {
    match vt
    case PlainT(NumberListT(k)) => !Is64(k)
    case PlainT(RangeT(k)) => k in {U32, S32}
    case PlainT(_) => true
    case _ =>
      match vt.t
      case BoolT | MacT | Ip4T | Ip6T | OidT | OidListT => true
      case NumberT(k) => !Is64(k)
      case _ => false
  }

  function GetAttrsStatus(m: Meta, t: ObjectType, query: seq<Attribute>): Status
    requires Typed(m, t, query)
  {
    if query == [] then Success
    else
      var a := query[0];
      var s := if m.Has(t, a.id) then GetAttrStatus(m.Of(t, a.id).valueType, a.value) else Failure;
      if s != Success then s else GetAttrsStatus(m, t, query[1..])
  }

  /** `meta_generic_validation_get` */
  function GetStatus(m: Meta, store: Store, key: MetaKey, query: seq<Attribute>): Status
    requires Typed(m, key.Type(), query)
  {
    if |query| < 1 || |query| > MAX_LIST_COUNT then InvalidParameter
    else
      var s := GetAttrsStatus(m, key.Type(), query);
      if s != Success then s
      else if key !in store then InvalidParameter
      else if key.OidKey? && (m.typeOf(key.oid) == NULL_TYPE || m.typeOf(key.oid) != key.objectType)
      then InvalidParameter
      else Success
  }

  datatype Call = CreateCall | GetCall | OtherCall

  predicate OidUsable(m: Meta, store: Store, t: ObjectType, oid: Oid) {
    oid != NULL_OID && m.typeOf(oid) != NULL_TYPE && m.typeOf(oid) == t && OidKey(t, oid) in store
  }

  /** `meta_sai_validate_oid`, `meta_sai_validate_fdb_entry`, `..._neighbor_entry` and
      `..._route_entry`. Printing the key of an IPv4 route throws on an invalid mask. */
  function EntryStatus(m: Meta, store: Store, key: MetaKey, call: Call): Status {
    match key
    case OidKey(t, oid) =>
      if t == NULL_TYPE || t >= OBJECT_TYPE_MAX then InvalidParameter
      else if IsEntryType(t) then Fatal
      else if call.CreateCall? || OidUsable(m, store, t, oid) then Success
      else InvalidParameter
    case FdbKey(_, _, _) => ExistenceStatus(store, key, call)
    case NeighborKey(_, rif, ip) =>
      if ip.OtherFamily? || !OidUsable(m, store, ROUTER_INTERFACE, rif) then InvalidParameter
      else ExistenceStatus(store, key, if call.GetCall? then OtherCall else call)
    case RouteKey(_, vr, dest) =>
      if dest.OtherPrefix? || (dest.Prefix6? && !IpMask.Contiguous(dest.mask6))
         || !OidUsable(m, store, VIRTUAL_ROUTER, vr) then InvalidParameter
      else if dest.Prefix4? && !IpMask.Contiguous(dest.mask4) then Fatal
      else ExistenceStatus(store, key, if call.GetCall? then OtherCall else call)
  }

  function ExistenceStatus(store: Store, key: MetaKey, call: Call): Status {
    match call
    case CreateCall => if key in store then ItemAlreadyExists else Success
    case GetCall => Success
    case OtherCall => if key in store then Success else InvalidParameter
  }

  // ------------------------------------------------------------- post states

  /** The oid a vendor answers to a create is of the requested type, on the requested switch. */
  predicate AnswerOk(m: Meta, refs: References, key: MetaKey, sw: Oid)
    requires key.OidKey?
  {
    && key.oid != NULL_OID && m.typeOf(key.oid) != NULL_TYPE && m.typeOf(key.oid) == key.objectType
    && (key.objectType != SWITCH ==> m.switchOf(key.oid) in refs && m.switchOf(key.oid) == sw)
  }

  function WithEntry(refs: References, key: MetaKey): References {
    if key.OidKey? then refs[key.oid := 0] else refs
  }

  /** After `meta_generic_validation_post_create`. `garbage` is the value the local
      `haskeys` happens to hold before its first assignment. */
  ghost function AfterCreate(m: Meta, db: Db, key: MetaKey, attrs: seq<Attribute>, garbage: bool): Db {
    CreatedWith(db, key, StoredAttrs(attrs), HasKeys(m, key.Type(), attrs) || garbage,
                KeyText(m, key.Type(), StoredAttrs(attrs)))
  }

  ghost function CreatedWith(db: Db, key: MetaKey, a: Attrs, indexed: bool, text: string): Db {
    Db(Added(WithEntry(db.refs, key), ObjectBag(key, a)),
       db.store[key := a],
       if indexed then db.keys[key := text] else db.keys,
       db.related,
       db.created + {key},
       db.interrupted)
  }

  /** How many of the attributes print, up to the first that does not */
  function Stops(attrs: seq<Attribute>, i: nat): (n: nat)
    requires i <= |attrs|
    ensures i <= n <= |attrs|
    decreases |attrs| - i
  {
    if i == |attrs| || !Storable(attrs[i].value) then i else Stops(attrs, i + 1)
  }

  /** What the first `i` attributes leave stored. */
  function StoredUpTo(attrs: seq<Attribute>, i: nat): Attrs
    requires i <= |attrs|
  {
    StoredAttrs(attrs[..i])
  }

  /** What an exception in the attribute loop of create leaves: the object with the
      attributes before it, and no entry in the index. */
  ghost function Interrupted(db: Db, key: MetaKey, a: Attrs): Db {
    Db(Added(WithEntry(db.refs, key), ObjectBag(key, a)),
       db.store[key := a],
       db.keys,
       db.related,
       db.created,
       db.interrupted + {key})
  }

  /** After the post step of create, which an attribute that does not print interrupts. */
  ghost function AfterPostCreate(m: Meta, db: Db, key: MetaKey, attrs: seq<Attribute>, garbage: bool): Db {
    if AllStorable(attrs) then AfterCreate(m, db, key, attrs, garbage)
    else Interrupted(db, key, StoredUpTo(attrs, Stops(attrs, 0)))
  }

  function Previous(db: Db, key: MetaKey, id: AttrId): seq<Oid>
    requires key in db.store
  {
    if id in db.store[key] then Refs(db.store[key][id]) else []
  }

  function WithAttr(attrs: Attrs, a: Attribute): Attrs { attrs[a.id := Canon(a.value)] }

  /** After `meta_generic_validation_post_set`. */
  ghost function AfterSet(db: Db, key: MetaKey, a: Attribute): Db
    requires key in db.store
  {
    db.(refs := Added(Subtracted(db.refs, multiset(Previous(db, key, a.id))), multiset(Refs(a.value))),
        store := db.store[key := WithAttr(db.store[key], a)])
  }

  function OidsOf(ks: set<MetaKey>): set<Oid> { set k | k in ks && k.OidKey? :: k.oid }

  function Restrict(s: Store, ks: set<MetaKey>): Store { map k | k in s && k in ks :: s[k] }

  /** The objects `ks` are gone, and with them every reference they held. */
  ghost function Erased(db: Db, ks: set<MetaKey>): Db {
    db.(refs := Subtracted(db.refs, StoreBag(Restrict(db.store, ks))) - OidsOf(ks),
        store := db.store - ks,
        keys := db.keys - ks,
        created := db.created - ks,
        interrupted := db.interrupted - ks)
  }

  function KeyOf(m: Meta, oid: Oid): MetaKey { OidKey(m.typeOf(oid), oid) }

  function RelatedKeys(m: Meta, db: Db, port: Oid): set<MetaKey> {
    if port in db.related then set o | o in db.related[port] :: KeyOf(m, o) else {}
  }

  /** After `meta_generic_validation_post_remove`. */
  ghost function AfterRemove(m: Meta, db: Db, key: MetaKey): Db {
    if key.Type() == SWITCH then db
    else if key.Type() == PORT && key.oid in db.related then
      Erased(db, {key} + RelatedKeys(m, db, key.oid)).(related := db.related[key.oid := {}])
    else Erased(db, {key})
  }

  function AfterSnoop(m: Meta, db: Db, oid: Oid): Db {
    if oid == NULL_OID || oid in db.refs || m.typeOf(oid) == NULL_TYPE then db
    else db.(refs := db.refs[oid := 0],
             store := if KeyOf(m, oid) in db.store then db.store else db.store[KeyOf(m, oid) := map[]])
  }

  function AfterSnoops(m: Meta, db: Db, oids: seq<Oid>): Db
    decreases |oids|
  {
    if oids == [] then db else AfterSnoops(m, AfterSnoop(m, db, oids[0]), oids[1..])
  }

  function ResultOids(results: seq<Attribute>): seq<Oid> {
    if results == [] then [] else Refs(results[0].value) + ResultOids(results[1..])
  }

  function RelatedOids(results: seq<Attribute>): set<Oid> {
    set a, o | a in results && IsPortRelated(PORT, a.id) && o in DataRefs(a.value.data) :: o
  }

  function WithRelated(related: map<Oid, set<Oid>>, port: Oid, oids: set<Oid>): map<Oid, set<Oid>> {
    if oids == {} then related
    else related[port := (if port in related then related[port] else {}) + oids]
  }

  /** After `meta_generic_validation_post_get`. */
  function AfterGet(m: Meta, db: Db, key: MetaKey, results: seq<Attribute>): Db {
    var db1 := AfterSnoops(m, db, ResultOids(results));
    if key.Type() == PORT && key.OidKey?
    then db1.(related := WithRelated(db1.related, key.oid, RelatedOids(results)))
    else db1
  }

  // -------------------------------------------------------- fdb notifications

  datatype FdbKind = Learned | Aged | Move | Flushed

  /** A notification that carries one attribute is assumed to lack the entry type. */
  function Completed(attrs: seq<Attribute>): seq<Attribute> {
    if |attrs| == 1 then attrs + [Attribute(FDB_TYPE, Plain(NumberV(FDB_ENTRY_DYNAMIC)))] else attrs
  }

  function NotifiedOids(m: Meta, attrs: seq<Attribute>): seq<Oid> {
    if attrs == [] then []
    else
      (if m.Has(FDB_ENTRY, attrs[0].id) && m.Of(FDB_ENTRY, attrs[0].id).valueType == PlainT(OidT)
       then DataRefs(attrs[0].value.data) else []) + NotifiedOids(m, attrs[1..])
  }

  const ZERO_MAC: Mac := [0, 0, 0, 0, 0, 0]

  /** An fdb entry of the notified type, on the notified bridge port and bridge or vlan
      where those are given and not null. */
  predicate FlushMatches(store: Store, bvId: Oid, attrs: seq<Attribute>, k: MetaKey) {
    && k in store && k.FdbKey?
    && var entryType, port := Find(attrs, FDB_TYPE), Find(attrs, FDB_BRIDGE_PORT);
       && entryType.Some? && FDB_TYPE in store[k]
       && store[k][FDB_TYPE].data == entryType.value.data
       && (port.Some? && port.value.data != OidV(NULL_OID) ==>
             FDB_BRIDGE_PORT in store[k] && store[k][FDB_BRIDGE_PORT].data == port.value.data)
       && (bvId != NULL_OID ==> k.bvId == bvId)
  }

  ghost function Flushable(store: Store, bvId: Oid, attrs: seq<Attribute>): set<MetaKey> {
    set k | k in store && FlushMatches(store, bvId, attrs, k)
  }

  ghost function AfterMoveStep(m: Meta, db: Db, key: MetaKey, a: Attribute): Db
    requires Typed(m, key.Type(), [a])
  {
    if SetStatus(m, db.refs, db.store, key, a) == Success && key in db.store then AfterSet(db, key, a)
    else db
  }

  lemma TypedSplit(m: Meta, t: ObjectType, attrs: seq<Attribute>)
    requires Typed(m, t, attrs) && attrs != []
    ensures Typed(m, t, [attrs[0]]) && Typed(m, t, attrs[1..])
  {
    assert attrs[0] in attrs;
  }

  /** A move applies every attribute that validates; an exception ends it. */
  ghost function AfterMove(m: Meta, db: Db, key: MetaKey, attrs: seq<Attribute>): Db
    requires Typed(m, key.Type(), attrs)
    decreases |attrs|
  {
    if attrs == [] then db
    else
      TypedSplit(m, key.Type(), attrs);
      if SetStatus(m, db.refs, db.store, key, attrs[0]) == Fatal then db
      else AfterMove(m, AfterMoveStep(m, db, key, attrs[0]), key, attrs[1..])
  }

  /** What a notification does once its oids have been snooped. */
  ghost function AfterNotice(m: Meta, db: Db, key: MetaKey, kind: FdbKind, attrs: seq<Attribute>,
                             garbage: bool): Db
    requires key.FdbKey? && Typed(m, FDB_ENTRY, attrs) && Typed(m, FDB_ENTRY, Completed(attrs))
  {
    match kind
    case Learned =>
      if key !in db.store && CreateStatus(m, db, key, key.switchId, Completed(attrs)) == Success
      then AfterCreate(m, db, key, Completed(attrs), garbage) else db
    case Aged => if key in db.store then Erased(db, {key}) else db
    case Flushed =>
      if key.mac == ZERO_MAC then Erased(db, Flushable(db.store, key.bvId, attrs))
      else if key in db.store then Erased(db, {key})
      else db
    case Move => if key in db.store then AfterMove(m, db, key, attrs) else db
  }

  /** `meta_sai_on_fdb_event_single` */
  ghost function AfterFdb(m: Meta, db: Db, key: MetaKey, kind: FdbKind, attrs: seq<Attribute>,
                          garbage: bool): Db
    requires key.FdbKey? && Typed(m, FDB_ENTRY, attrs) && Typed(m, FDB_ENTRY, Completed(attrs))
  {
    AfterNotice(m, AfterSnoops(m, db, [key.bvId] + NotifiedOids(m, attrs)), key, kind, attrs, garbage)
  }
}
