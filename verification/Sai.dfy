/** The SAI vocabulary shared by every module: object ids, attribute values, attribute
    metadata and object keys.

    The generated metadata tables and the vendor's `sai_object_type_query` and
    `sai_switch_id_query` are the fields of `Meta`; `Lawful` collects what the
    repository's own metadata checks (SAI/meta/saisanitycheck.c) guarantee about them. */
module Sai {

  datatype Option<+T> = None | Some(value: T)

  type Byte = n: nat | n < 256
  type Bytes4 = s: seq<Byte> | |s| == 4 witness [0, 0, 0, 0]
  type Mac = s: seq<Byte> | |s| == 6 witness [0, 0, 0, 0, 0, 0]
  type Bytes16 = s: seq<Byte> | |s| == 16
    witness [0, 0, 0, 0, 0, 0, 0, 0, 0, 0, 0, 0, 0, 0, 0, 0]
  type Text32 = s: seq<Byte> | |s| == 32
    witness [0, 0, 0, 0, 0, 0, 0, 0, 0, 0, 0, 0, 0, 0, 0, 0,
             0, 0, 0, 0, 0, 0, 0, 0, 0, 0, 0, 0, 0, 0, 0, 0]

  const ZERO_TEXT: Text32 := [0, 0, 0, 0, 0, 0, 0, 0, 0, 0, 0, 0, 0, 0, 0, 0,
                              0, 0, 0, 0, 0, 0, 0, 0, 0, 0, 0, 0, 0, 0, 0, 0]
  const ZERO_IP6: Bytes16 := [0, 0, 0, 0, 0, 0, 0, 0, 0, 0, 0, 0, 0, 0, 0, 0]

  const TWO_64: nat := 0x1_0000_0000_0000_0000

  type Oid = n: nat | n < 0x1_0000_0000_0000_0000
  type ObjectType = nat
  type AttrId = nat

  const NULL_OID: Oid := 0

  // Object types (saitypes.h).
  const NULL_TYPE: ObjectType := 0
  const PORT: ObjectType := 1
  const VIRTUAL_ROUTER: ObjectType := 3
  const ROUTER_INTERFACE: ObjectType := 6
  const ACL_TABLE: ObjectType := 7
  const STP: ObjectType := 16
  const SCHEDULER_GROUP: ObjectType := 23
  const BUFFER_POOL: ObjectType := 24
  const BUFFER_PROFILE: ObjectType := 25
  const FDB_ENTRY: ObjectType := 32
  const SWITCH: ObjectType := 33
  const NEIGHBOR_ENTRY: ObjectType := 36
  const ROUTE_ENTRY: ObjectType := 37
  const VLAN: ObjectType := 38
  const L2MC_ENTRY: ObjectType := 53
  const IPMC_ENTRY: ObjectType := 54
  const MCAST_FDB_ENTRY: ObjectType := 55
  const BRIDGE: ObjectType := 57
  const INSEG_ENTRY: ObjectType := 63
  const NAT_ENTRY: ObjectType := 82
  const OBJECT_TYPE_MAX: ObjectType := 90    // SAI_OBJECT_TYPE_EXTENSIONS_MAX

  // Attribute ids named by the code (saifdb.h, saiport.h, saibuffer.h, ...).
  const FDB_TYPE: AttrId := 0
  const FDB_BRIDGE_PORT: AttrId := 3
  const PORT_QUEUE_LIST: AttrId := 5
  const PORT_SCHEDULER_GROUP_LIST: AttrId := 7
  const PORT_PRIORITY_GROUP_LIST: AttrId := 24
  const PORT_HW_LANE_LIST: AttrId := 27
  const STP_BRIDGE_ID: AttrId := 1
  const SCHEDULER_GROUP_PROFILE: AttrId := 5
  const BUFFER_PROFILE_POOL: AttrId := 0
  const BUFFER_PROFILE_DYNAMIC_TH: AttrId := 3
  const BUFFER_PROFILE_STATIC_TH: AttrId := 4
  const BUFFER_POOL_THRESHOLD_MODE: AttrId := 3
  const ACL_TABLE_RANGE_TYPE: AttrId := 0x1139

  const THRESHOLD_STATIC: int := 0
  const THRESHOLD_DYNAMIC: int := 1
  const FDB_ENTRY_DYNAMIC: int := 0

  /** `isnonobjectid`: objects named by a struct instead of an oid. */
  predicate IsEntryType(t: ObjectType) {
    t in {FDB_ENTRY, NEIGHBOR_ENTRY, ROUTE_ENTRY, L2MC_ENTRY, IPMC_ENTRY, MCAST_FDB_ENTRY,
          INSEG_ENTRY, NAT_ENTRY}
  }

  // ---------------------------------------------------------------- values

  datatype NumKind = U8 | S8 | U16 | S16 | U32 | S32 | U64 | S64

  function Modulus(k: NumKind): nat {
    match k
    case U8 | S8 => 0x100
    case U16 | S16 => 0x1_0000
    case U32 | S32 => 0x1_0000_0000
    case U64 | S64 => TWO_64
  }

  predicate Signed(k: NumKind) { k in {S8, S16, S32, S64} }

  predicate Fits(k: NumKind, n: int) {
    if Signed(k) then -(Modulus(k) / 2) <= n < Modulus(k) / 2 else 0 <= n < Modulus(k)
  }

  /** A counted C array: a null pointer with its count, or the elements. */
  datatype List<T> = Null(count: nat) | Items(items: seq<T>) {
    function Count(): nat { if Null? then count else |items| }
    function Elements(): seq<T> { if Null? then [] else items }
  }

  datatype Ip = V4(b4: Bytes4) | V6(b16: Bytes16) | OtherFamily(family: int)

  datatype Prefix =
    | Prefix4(addr4: Bytes4, mask4: Bytes4)
    | Prefix6(addr6: Bytes16, mask6: Bytes16)
    | OtherPrefix(family: int)

  datatype DataType =
    | BoolT | TextT | NumberT(kind: NumKind) | MacT | Ip4T | Ip6T | PointerT
    | AddressT | PrefixT | OidT | OidListT | NumberListT(kind: NumKind)
    | RangeT(kind: NumKind) | AddressListT | VlanListT | CapabilityT

  datatype Data =
    | BoolV(b: bool)
    | TextV(text: Text32)
    | NumberV(n: int)
    | MacV(mac: Mac)
    | Ip4V(ip4: Bytes4)
    | Ip6V(ip6: Bytes16)
    | PointerV(ptr: nat)
    | AddressV(ip: Ip)
    | PrefixV(prefix: Prefix)
    | OidV(oid: Oid)
    | OidListV(oids: List<Oid>)
    | NumberListV(numbers: List<int>)
    | RangeV(lo: int, hi: int)
    | AddressListV(ips: List<Ip>)
    | CapabilityV(mandatory: bool, actions: List<int>)

  /** A plain value, an ACL field (data under a mask) or an ACL action. */
  datatype ValueType = PlainT(t: DataType) | FieldT(t: DataType) | ActionT(t: DataType)

  datatype Value =
    | Plain(data: Data)
    | Field(enable: bool, data: Data, mask: Data)
    | Action(enable: bool, data: Data)

  predicate CountFits<T>(l: List<T>) { l.Count() < 0x1_0000_0000 }

  predicate DataTyped(t: DataType, d: Data) {
    match t
    case BoolT => d.BoolV?
    case TextT => d.TextV?
    case NumberT(k) => d.NumberV? && Fits(k, d.n)
    case MacT => d.MacV?
    case Ip4T => d.Ip4V?
    case Ip6T => d.Ip6V?
    case PointerT => d.PointerV? && d.ptr < TWO_64
    case AddressT => d.AddressV?
    case PrefixT => d.PrefixV?
    case OidT => d.OidV?
    case OidListT => d.OidListV? && CountFits(d.oids)
    case NumberListT(k) =>
      d.NumberListV? && CountFits(d.numbers) && forall n <- d.numbers.Elements() :: Fits(k, n)
    case RangeT(k) => d.RangeV? && Fits(k, d.lo) && Fits(k, d.hi)
    case AddressListT => d.AddressListV? && CountFits(d.ips)
    case VlanListT =>
      d.NumberListV? && CountFits(d.numbers) && forall n <- d.numbers.Elements() :: Fits(U16, n)
    case CapabilityT =>
      d.CapabilityV? && CountFits(d.actions) && forall n <- d.actions.Elements() :: Fits(S32, n)
  }

  /** The union member selected by the attribute's value type is the one that is set. */
  predicate WellTyped(vt: ValueType, v: Value) {
    match vt
    case PlainT(t) => v.Plain? && DataTyped(t, v.data)
    case FieldT(t) => v.Field? && DataTyped(t, v.data) && DataTyped(t, v.mask)
    case ActionT(t) => v.Action? && DataTyped(t, v.data)
  }

  predicate IsOidType(vt: ValueType) { vt.t.OidT? || vt.t.OidListT? }

  function DataRefs(d: Data): seq<Oid> {
    match d
    case OidV(oid) => [oid]
    case OidListV(oids) => oids.Elements()
    case _ => []
  }

  /** The object ids whose references a stored value holds: those of an OBJECT_ID or
      OBJECT_LIST value, and those of an ACL field or action only while it is enabled. */
  function Refs(v: Value): seq<Oid> {
    if Enabled(v) then DataRefs(v.data) else []
  }

  predicate Enabled(v: Value) { v.Plain? || v.enable }

  datatype Attribute = Attribute(id: AttrId, value: Value)

  // -------------------------------------------------------------- metadata

  datatype EnumMeta = EnumMeta(values: seq<int>, names: seq<string>)

  datatype Condition = Condition(attrId: AttrId, flag: bool, number: int)

  datatype AttrMeta = AttrMeta(
    id: AttrId, name: string, valueType: ValueType,
    mandatory: bool, createOnly: bool, readOnly: bool, key: bool,
    allowed: set<ObjectType>, allowNull: bool,
    enums: Option<EnumMeta>, isEnum: bool, isEnumList: bool,
    conditional: bool, conditions: seq<Condition>,
    default: Option<Value>)

  /** `order[t]` lists the attribute ids of type `t` as `attrmetadata` does. */
  datatype Meta = Meta(
    typeOf: Oid -> ObjectType,
    switchOf: Oid -> Oid,
    table: map<(ObjectType, AttrId), AttrMeta>,
    order: map<ObjectType, seq<AttrId>>) {

    predicate Has(t: ObjectType, id: AttrId) { (t, id) in table }

    function Of(t: ObjectType, id: AttrId): AttrMeta
      requires Has(t, id)
    {
      table[(t, id)]
    }

    function Ids(t: ObjectType): seq<AttrId> { if t in order then order[t] else [] }
  }

  /** Attributes whose value lists name the objects a port brings along. */
  predicate IsPortRelated(t: ObjectType, id: AttrId) {
    t == PORT && id in {PORT_QUEUE_LIST, PORT_SCHEDULER_GROUP_LIST, PORT_PRIORITY_GROUP_LIST}
  }

  /** The two coded exceptions to mandatory attributes. */
  predicate IsMandatoryException(t: ObjectType, id: AttrId) {
    || (t == BUFFER_PROFILE && id in {BUFFER_PROFILE_DYNAMIC_TH, BUFFER_PROFILE_STATIC_TH})
    || (t == ACL_TABLE && id == ACL_TABLE_RANGE_TYPE)
  }

  ghost predicate AttrLawful(m: Meta, t: ObjectType, id: AttrId)
    requires m.Has(t, id)
  {
    var md := m.Of(t, id);
    && md.id == id
    && id in m.Ids(t)
    // check_attr_key: the value types a key attribute may have
    && (md.key ==> md.valueType in {PlainT(NumberT(S32)), PlainT(NumberT(U32)),
                                    PlainT(NumberT(U8)), PlainT(NumberT(U16)),
                                    PlainT(OidT), PlainT(NumberListT(U32))})
    // check_attr_object_type_provided
    && (IsOidType(md.valueType) <==> md.allowed != {})
    // action capabilities are read only everywhere
    && (md.valueType.t.CapabilityT? ==> md.readOnly)
    && (md.isEnum ==> md.valueType.t == NumberT(S32))
    && (md.isEnumList ==> md.valueType == PlainT(NumberListT(S32)))
    // check_attr_conditions: a condition is on a bool or enum attribute of the same
    // object, which is unconditional and either has a default or is mandatory
    && (forall c <- md.conditions ::
          && m.Has(t, c.attrId)
          && var cmd := m.Of(t, c.attrId);
             && cmd.valueType in {PlainT(BoolT), PlainT(NumberT(S32))}
             && !cmd.conditional
             && (match cmd.default
                 case Some(d) => WellTyped(cmd.valueType, d)
                 case None => cmd.mandatory && !IsMandatoryException(t, c.attrId)))
    && (IsPortRelated(t, id) ==>
          md.valueType == PlainT(OidListT) && PORT !in md.allowed && SWITCH !in md.allowed)
  }

  ghost predicate Lawful(m: Meta) {
    && m.typeOf(NULL_OID) == NULL_TYPE
    && m.switchOf(NULL_OID) == NULL_OID
    && (forall o: Oid :: !IsEntryType(m.typeOf(o)))
    && (forall o: Oid :: m.typeOf(o) == SWITCH ==> m.switchOf(o) == o)
    && (forall t, id :: m.Has(t, id) ==> AttrLawful(m, t, id))
    && (forall t, id :: id in m.Ids(t) ==> m.Has(t, id))
    && m.Has(FDB_ENTRY, FDB_TYPE)
    && m.Of(FDB_ENTRY, FDB_TYPE).valueType == PlainT(NumberT(S32))
    && m.Of(FDB_ENTRY, FDB_TYPE).mandatory && !m.Of(FDB_ENTRY, FDB_TYPE).conditional
    // fdb attributes are enums, numbers, oids and one address
    && (forall id :: m.Has(FDB_ENTRY, id) ==>
          !m.Of(FDB_ENTRY, id).valueType.t.PrefixT? && !m.Of(FDB_ENTRY, id).valueType.t.AddressListT?)
    && m.Has(FDB_ENTRY, FDB_BRIDGE_PORT)
    && m.Of(FDB_ENTRY, FDB_BRIDGE_PORT).valueType == PlainT(OidT)
    && m.Has(BUFFER_PROFILE, BUFFER_PROFILE_POOL)
    && m.Of(BUFFER_PROFILE, BUFFER_PROFILE_POOL).valueType == PlainT(OidT)
    && m.Has(BUFFER_POOL, BUFFER_POOL_THRESHOLD_MODE)
    && m.Of(BUFFER_POOL, BUFFER_POOL_THRESHOLD_MODE).valueType == PlainT(NumberT(S32))
    && (match m.Of(BUFFER_POOL, BUFFER_POOL_THRESHOLD_MODE).default
        case Some(d) => WellTyped(PlainT(NumberT(S32)), d)
        case None => false)
  }

  // ------------------------------------------------------------------ keys

  /** `sai_object_meta_key_t` for the object types that can be stored. */
  datatype MetaKey =
    | OidKey(objectType: ObjectType, oid: Oid)
    | FdbKey(switchId: Oid, mac: Mac, bvId: Oid)
    | RouteKey(switchId: Oid, vrId: Oid, dest: Prefix)
    | NeighborKey(switchId: Oid, rifId: Oid, ip: Ip)
  {
    function Type(): ObjectType {
      match this
      case OidKey(t, _) => t
      case FdbKey(_, _, _) => FDB_ENTRY
      case RouteKey(_, _, _) => ROUTE_ENTRY
      case NeighborKey(_, _, _) => NEIGHBOR_ENTRY
    }

    /** The struct members of object id type, in declaration order. */
    function Members(): seq<Oid> {
      match this
      case OidKey(_, _) => []
      case FdbKey(sw, _, bv) => [sw, bv]
      case RouteKey(sw, vr, _) => [sw, vr]
      case NeighborKey(sw, rif, _) => [sw, rif]
    }

    /** The object types allowed on the second member. */
    function MemberTypes(): set<ObjectType> {
      match this
      case OidKey(_, _) => {}
      case FdbKey(_, _, _) => {BRIDGE, VLAN}
      case RouteKey(_, _, _) => {VIRTUAL_ROUTER}
      case NeighborKey(_, _, _) => {ROUTER_INTERFACE}
    }
  }
}
