/** What `SaiAttrWrapper` keeps of an attribute: it stores `deserialize(serialize(v))`
    (sai_meta.cpp). `ValueText` proves that this is `Canon(v)` exactly for the values
    that are `Storable`; on the others serialization throws. */
module Stored {
  import opened Sai
  import IpMask
  import CharData

  function CanonList<T>(l: List<T>): List<T> {
    if l.Items? && l.items == [] then Null(0) else l
  }

  function CanonData(d: Data): Data {
    match d
    case TextV(text) => TextV(CharData.Pad(CharData.CString(text)))
    case OidListV(oids) => OidListV(CanonList(oids))
    case NumberListV(numbers) => NumberListV(CanonList(numbers))
    case AddressListV(ips) => AddressListV(CanonList(ips))
    case CapabilityV(mandatory, actions) => CapabilityV(mandatory, CanonList(actions))
    case _ => d
  }

  /** The all-zero value of the same union member. */
  function Zero(d: Data): Data {
    match d
    case BoolV(_) => BoolV(false)
    case TextV(_) => TextV(ZERO_TEXT)
    case NumberV(_) => NumberV(0)
    case MacV(_) => MacV([0, 0, 0, 0, 0, 0])
    case Ip4V(_) => Ip4V([0, 0, 0, 0])
    case Ip6V(_) => Ip6V(ZERO_IP6)
    case PointerV(_) => PointerV(0)
    case AddressV(_) => AddressV(V4([0, 0, 0, 0]))
    case PrefixV(_) => PrefixV(Prefix4([0, 0, 0, 0], [0, 0, 0, 0]))
    case OidV(_) => OidV(NULL_OID)
    case OidListV(_) => OidListV(Null(0))
    case NumberListV(_) => NumberListV(Null(0))
    case RangeV(_, _) => RangeV(0, 0)
    case AddressListV(_) => AddressListV(Null(0))
    case CapabilityV(_, _) => CapabilityV(false, Null(0))
  }

  /** ACL fields of these kinds are printed with their mask. */
  predicate HasMask(d: Data) { d.NumberV? || d.MacV? || d.Ip4V? || d.Ip6V? }

  /** Disabled ACL data is zeroed, empty lists become null, text is cut at its NUL. */
  function Canon(v: Value): Value {
    match v
    case Plain(d) => Plain(CanonData(d))
    case Field(true, d, mask) => Field(true, CanonData(d), if HasMask(d) then mask else Zero(mask))
    case Field(false, d, mask) => Field(false, Zero(d), Zero(mask))
    case Action(true, d) => Action(true, CanonData(d))
    case Action(false, d) => Action(false, Zero(d))
  }

  predicate StorableIp(ip: Ip) { !ip.OtherFamily? }

  predicate StorableData(d: Data) {
    match d
    case AddressV(ip) => StorableIp(ip)
    case AddressListV(ips) => forall ip <- ips.Elements() :: StorableIp(ip)
    case PrefixV(Prefix4(_, mask)) => IpMask.Contiguous(mask)
    case PrefixV(Prefix6(_, mask)) => IpMask.Contiguous(mask)
    case PrefixV(OtherPrefix(_)) => false
    case _ => true
  }

  /** Printing the value does not throw. */
  predicate Storable(v: Value) { v.Plain? ==> StorableData(v.data) }

  lemma CanonTyped(vt: ValueType, v: Value)
    requires WellTyped(vt, v)
    ensures WellTyped(vt, Canon(v))
    ensures Refs(Canon(v)) == Refs(v)
  {
    CanonDataTyped(vt.t, v.data);
    ZeroTyped(vt.t, v.data);
    if v.Field? {
      ZeroTyped(vt.t, v.mask);
    }
  }

  lemma CanonDataTyped(t: DataType, d: Data)
    requires DataTyped(t, d)
    ensures DataTyped(t, CanonData(d)) && DataRefs(CanonData(d)) == DataRefs(d)
  {
    match t
    case NumberListT(_) =>
    case OidListT =>
    case AddressListT =>
    case VlanListT =>
    case CapabilityT =>
    case _ =>
  }

  lemma ZeroTyped(t: DataType, d: Data)
    requires DataTyped(t, d)
    ensures DataTyped(t, Zero(d))
  {
    match t
    case NumberT(k) => ZeroFits(k);
    case RangeT(k) => ZeroFits(k);
    case NumberListT(k) =>
    case CapabilityT =>
    case _ =>
  }

  lemma ZeroFits(k: NumKind)
    ensures Fits(k, 0)
  {
  }

  // ------------------------------------------------------- the stored form

  lemma PadAt(bytes: seq<Byte>, i: nat)
    requires |bytes| <= 32 && i < 32
    ensures CharData.Pad(bytes)[i] == if i < |bytes| then bytes[i] else 0
  {
    assert ZERO_TEXT[i] == 0;
  }

  lemma StringEnd(text: Text32, i: nat)
    requires i < 32
    ensures i < |CharData.CString(text)| <==> forall j :: 0 <= j <= i ==> text[j] != 0
  {
    var s := CharData.CString(text);
    forall j | 0 <= j < |s| ensures text[j] != 0 {
      assert s[j] == text[j] && s[j] in s;
    }
  }

  /** Text keeps its bytes up to the first NUL and is zero from there on. */
  lemma CanonText(text: Text32, i: nat)
    requires i < 32
    ensures CanonData(TextV(text)).text[i] == if forall j :: 0 <= j <= i ==> text[j] != 0 then text[i] else 0
  {
    StringEnd(text, i);
    PadAt(CharData.CString(text), i);
  }

  /** An empty list becomes a null one; any other data is kept. */
  lemma CanonPlain(d: Data)
    ensures CanonData(d) ==
      match d
      case TextV(_) => CanonData(d)
      case OidListV(l) => OidListV(if l == Items([]) then Null(0) else l)
      case NumberListV(l) => NumberListV(if l == Items([]) then Null(0) else l)
      case AddressListV(l) => AddressListV(if l == Items([]) then Null(0) else l)
      case CapabilityV(mandatory, l) => CapabilityV(mandatory, if l == Items([]) then Null(0) else l)
      case _ => d
  {
  }

  /** Of a disabled ACL value only zeros are kept; of an enabled one the data, and the mask
      where fields of its kind have one. */
  lemma CanonAcl(d: Data, mask: Data)
    ensures Canon(Plain(d)) == Plain(CanonData(d)) && Canon(Action(true, d)) == Action(true, CanonData(d))
    ensures Canon(Field(true, d, mask))
         == Field(true, CanonData(d), if d.NumberV? || d.MacV? || d.Ip4V? || d.Ip6V? then mask else Zero(mask))
    ensures Canon(Field(false, d, mask)) == Field(false, Zero(d), Zero(mask))
    ensures Canon(Action(false, d)) == Action(false, Zero(d))
  {
  }
}
