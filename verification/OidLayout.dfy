/** The object id layout of the metadata tests (tests.cpp): eight bits of switch index,
    eight of object type and a 48-bit index. With a small attribute table it makes metadata
    that is lawful, so the theorems about the metadata database are about something. */
module OidLayout {
  import opened Sai
  import opened MetaState

  const TYPE_SHIFT: nat := 0x1_0000_0000_0000
  const SWITCH_SHIFT: nat := 0x100_0000_0000_0000

  /** `construct_object_id` */
  function Construct(objectType: ObjectType, switchIndex: nat, virtualId: nat): Oid
    requires objectType < 0x100 && switchIndex < 0x100 && virtualId < TYPE_SHIFT
  {
    switchIndex * SWITCH_SHIFT + objectType * TYPE_SHIFT + virtualId
  }

  function TypeBits(oid: Oid): nat { oid / TYPE_SHIFT % 0x100 }
  function SwitchBits(oid: Oid): nat { oid / SWITCH_SHIFT % 0x100 }

  /** `sai_object_type_query`; oids it throws on count as null here, and the layout makes no
      oid of an entry type. */
  function TypeOf(oid: Oid): ObjectType {
    if oid == NULL_OID || TypeBits(oid) >= OBJECT_TYPE_MAX || IsEntryType(TypeBits(oid))
    then NULL_TYPE else TypeBits(oid)
  }

  /** `sai_switch_id_query` */
  function SwitchOf(oid: Oid): Oid {
    if oid == NULL_OID || TypeOf(oid) == NULL_TYPE then NULL_OID
    else if TypeOf(oid) == SWITCH then oid
    else Construct(SWITCH, SwitchBits(oid), SwitchBits(oid))
  }

  /** The queries read back what an oid was made of, and the switch of an oid is a switch
      that lies on itself. */
  lemma QueriesInvert(objectType: ObjectType, switchIndex: nat, virtualId: nat)
    requires NULL_TYPE < objectType < OBJECT_TYPE_MAX && !IsEntryType(objectType)
    requires switchIndex < 0x100 && virtualId < TYPE_SHIFT
    ensures var oid := Construct(objectType, switchIndex, virtualId);
            && oid != NULL_OID && TypeOf(oid) == objectType && SwitchBits(oid) == switchIndex
            && TypeOf(SwitchOf(oid)) == SWITCH && SwitchOf(SwitchOf(oid)) == SwitchOf(oid)
            && (objectType != SWITCH ==> SwitchOf(oid) == Construct(SWITCH, switchIndex, switchIndex))
  {
    ConstructBits(objectType, switchIndex, virtualId);
    ConstructBits(SWITCH, switchIndex, switchIndex);
  }

  lemma ConstructBits(objectType: ObjectType, switchIndex: nat, virtualId: nat)
    requires 0 < objectType < 0x100 && switchIndex < 0x100 && virtualId < TYPE_SHIFT
    ensures var oid := Construct(objectType, switchIndex, virtualId);
            oid != NULL_OID && TypeBits(oid) == objectType && SwitchBits(oid) == switchIndex
  {
    var oid := Construct(objectType, switchIndex, virtualId);
    assert oid == TYPE_SHIFT * (0x100 * switchIndex + objectType) + virtualId;
    assert oid / TYPE_SHIFT == 0x100 * switchIndex + objectType;
    assert oid == SWITCH_SHIFT * switchIndex + (objectType * TYPE_SHIFT + virtualId);
    assert oid / SWITCH_SHIFT == switchIndex;
  }

  // ------------------------------------------------------------ a lawful table

  function Plainly(id: AttrId, name: string, t: DataType, mandatory: bool, allowed: set<ObjectType>,
                   default: Option<Value>): AttrMeta
  {
    AttrMeta(id, name, PlainT(t), mandatory, false, false, false, allowed, true,
             None, false, false, false, [], default)
  }

  const FDB_TYPE_META: AttrMeta :=
    Plainly(FDB_TYPE, "SAI_FDB_ENTRY_ATTR_TYPE", NumberT(S32), true, {}, None)
  const FDB_PORT_META: AttrMeta :=
    Plainly(FDB_BRIDGE_PORT, "SAI_FDB_ENTRY_ATTR_BRIDGE_PORT_ID", OidT, false, {BRIDGE}, None)
  const PROFILE_POOL_META: AttrMeta :=
    Plainly(BUFFER_PROFILE_POOL, "SAI_BUFFER_PROFILE_ATTR_POOL_ID", OidT, true, {BUFFER_POOL}, None)
  const POOL_MODE_META: AttrMeta :=
    Plainly(BUFFER_POOL_THRESHOLD_MODE, "SAI_BUFFER_POOL_ATTR_THRESHOLD_MODE", NumberT(S32), false, {},
            Some(Plain(NumberV(THRESHOLD_DYNAMIC))))

  function TestMeta(): Meta {
    Meta(
      oid => TypeOf(oid), oid => SwitchOf(oid),
      map[(FDB_ENTRY, FDB_TYPE) := FDB_TYPE_META, (FDB_ENTRY, FDB_BRIDGE_PORT) := FDB_PORT_META,
          (BUFFER_PROFILE, BUFFER_PROFILE_POOL) := PROFILE_POOL_META,
          (BUFFER_POOL, BUFFER_POOL_THRESHOLD_MODE) := POOL_MODE_META],
      map[FDB_ENTRY := [FDB_TYPE, FDB_BRIDGE_PORT], BUFFER_PROFILE := [BUFFER_PROFILE_POOL],
          BUFFER_POOL := [BUFFER_POOL_THRESHOLD_MODE]])
  }

  lemma TestAttrLawful(t: ObjectType, id: AttrId)
    requires TestMeta().Has(t, id)
    ensures AttrLawful(TestMeta(), t, id)
  {
    assert (t, id) in {(FDB_ENTRY, FDB_TYPE), (FDB_ENTRY, FDB_BRIDGE_PORT),
                       (BUFFER_PROFILE, BUFFER_PROFILE_POOL), (BUFFER_POOL, BUFFER_POOL_THRESHOLD_MODE)};
  }

  /** The layout with this table meets every law the theorems ask of the metadata. */
  lemma TestMetaLawful()
    ensures Lawful(TestMeta())
  {
    forall t: ObjectType, id: AttrId | TestMeta().Has(t, id) ensures AttrLawful(TestMeta(), t, id) {
      TestAttrLawful(t, id);
    }
  }
}
