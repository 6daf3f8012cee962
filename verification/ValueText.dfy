/** Attribute values as text: the dispatching printer and parser of saiserialize.cpp for
    every value type with a parser. Printing throws exactly on the values that are not
    `Storable`, and what is printed parses back to the canonical form, which is what the
    metadata database stores. */
module ValueText {
  import opened Sai
  import opened Stored
  import opened NumberText
  import opened CountedList
  import CharData
  import IpMask

  /** `inet_ntop` and `inet_pton` for both families. */
  datatype IpCodec = IpCodec(
    ntop4: Bytes4 -> string, pton4: string -> Option<Bytes4>,
    ntop6: Bytes16 -> string, pton6: string -> Option<Bytes16>)

  predicate IsIpChar(c: char) { IsLowerHex(c) || c == '.' || c == ':' }

  predicate IpText(s: string) { s != "" && All(s, IsIpChar) }

  ghost predicate Inverse(ip: IpCodec) {
    && (forall a: Bytes4 :: ip.pton4(ip.ntop4(a)) == Some(a) && IpText(ip.ntop4(a)))
    && (forall a: Bytes16 :: ip.pton6(ip.ntop6(a)) == Some(a) && IpText(ip.ntop6(a))
                             && ip.pton4(ip.ntop6(a)) == None)
  }

  /** The enumeration of an attribute and that of ACL action types. */
  datatype Context = Context(ip: IpCodec, enums: Option<EnumMeta>, actions: Option<EnumMeta>)

  ghost predicate ContextLawful(c: Context) {
    Inverse(c.ip) && EnumLawful(c.enums) && EnumLawful(c.actions)
  }

  // ------------------------------------------------------------- enumerations

  predicate IsNameChar(c: char) { IsDecimal(c) || 'A' <= c <= 'Z' || c == '_' }

  predicate IsName(s: string) { s != "" && 'A' <= s[0] <= 'Z' && All(s, IsNameChar) }

  /** Names are C identifiers in capitals; a name used twice has one value. */
  predicate EnumLawful(e: Option<EnumMeta>) {
    e.Some? ==>
      && |e.value.values| == |e.value.names|
      && (forall i :: 0 <= i < |e.value.names| ==> IsName(e.value.names[i]))
      && (forall i, j :: 0 <= i < j < |e.value.names| && e.value.names[i] == e.value.names[j] ==>
            e.value.values[i] == e.value.values[j])
  }

  function EnumText(e: Option<EnumMeta>, n: int): string {
    if e.None? then Decimal(n)
    else
      var i := IndexOf(e.value.values, n);
      if i < |e.value.values| && i < |e.value.names| then e.value.names[i] else Decimal(n)
  }

  function ParseEnum(e: Option<EnumMeta>, s: string): Option<int> {
    if e.None? then DeserializeNumber(S32, s, false)
    else
      var i := IndexOf(e.value.names, s);
      if i < |e.value.names| && i < |e.value.values| then Some(e.value.values[i])
      else DeserializeNumber(S32, s, false)
  }

  /** The text of a number in an enumeration: the name at the first place that has the
      number, or the decimal number where there is none. */
  ghost predicate NamesNumber(e: Option<EnumMeta>, n: int, s: string) {
    if e.Some? && n in e.value.values then
      exists i :: 0 <= i < |e.value.values| && i < |e.value.names| && e.value.values[i] == n
                  && s == e.value.names[i] && forall j :: 0 <= j < i ==> e.value.values[j] != n
    else s == Decimal(n)
  }

  /** The number a text stands for in an enumeration: that at the first place with the name,
      or what the text says as a number. */
  ghost predicate ReadsNumber(e: Option<EnumMeta>, s: string, r: Option<int>) {
    if e.Some? && s in e.value.names then
      exists i :: 0 <= i < |e.value.names| && i < |e.value.values| && e.value.names[i] == s
                  && r == Some(e.value.values[i]) && forall j :: 0 <= j < i ==> e.value.names[j] != s
    else r == DeserializeNumber(S32, s, false)
  }

  lemma EnumNames(e: Option<EnumMeta>, n: int)
    requires EnumLawful(e)
    ensures NamesNumber(e, n, EnumText(e, n))
  {
  }

  lemma EnumReads(e: Option<EnumMeta>, s: string)
    requires EnumLawful(e)
    ensures ReadsNumber(e, s, ParseEnum(e, s))
  {
  }

  /** `sai_serialize_enum` */
  method SerializeEnum(e: Option<EnumMeta>, n: int) returns (s: string)
    requires EnumLawful(e)
    ensures NamesNumber(e, n, s) && s == EnumText(e, n)
  {
    if e.None? {
      return Decimal(n);
    }
    var i := 0;
    while i < |e.value.values|
      invariant 0 <= i <= |e.value.values|
      invariant forall k :: 0 <= k < i ==> e.value.values[k] != n
    {
      if e.value.values[i] == n {
        return e.value.names[i];
      }
      i := i + 1;
    }
    s := Decimal(n);
  }

  /** `sai_deserialize_enum`; None is the exception. */
  method DeserializeEnum(e: Option<EnumMeta>, s: string) returns (r: Option<int>)
    requires EnumLawful(e)
    ensures ReadsNumber(e, s, r) && r == ParseEnum(e, s)
  {
    if e.None? {
      return DeserializeNumber(S32, s, false);
    }
    var i := 0;
    while i < |e.value.names|
      invariant 0 <= i <= |e.value.names|
      invariant forall k :: 0 <= k < i ==> e.value.names[k] != s
    {
      if e.value.names[i] == s {
        return Some(e.value.values[i]);
      }
      i := i + 1;
    }
    r := DeserializeNumber(S32, s, false);
  }

  predicate IsEnumChar(c: char) { IsNameChar(c) || c == '-' }

  lemma EnumChars(e: Option<EnumMeta>, n: int)
    requires EnumLawful(e)
    ensures EnumText(e, n) != "" && All(EnumText(e, n), IsEnumChar)
  {
    if e.Some? {
      var i := IndexOf(e.value.values, n);
      if i < |e.value.values| {
        assert IsName(e.value.names[i]);
      }
    }
  }

  lemma NamedRoundTrip(e: EnumMeta, n: int, i: nat)
    requires EnumLawful(Some(e)) && i == IndexOf(e.values, n) && i < |e.values|
    ensures ParseEnum(Some(e), e.names[i]) == Some(n)
  {
    assert IndexOf(e.names, e.names[i]) <= i;
  }

  lemma UnnamedRoundTrip(e: EnumMeta, n: int)
    requires EnumLawful(Some(e)) && Fits(S32, n)
    ensures ParseEnum(Some(e), Decimal(n)) == Some(n)
  {
    NumberRoundTrip(S32, n, false);
    NumberIsNoName(n);
    assert forall k :: 0 <= k < |e.names| ==> IsName(e.names[k]);
  }

  /** Every number of an enumeration attribute survives, whether it has a name or not. */
  lemma EnumRoundTrip(e: Option<EnumMeta>, n: int)
    requires EnumLawful(e) && Fits(S32, n)
    ensures ParseEnum(e, EnumText(e, n)) == Some(n)
  {
    NumberRoundTrip(S32, n, false);
    if e.Some? {
      var i := IndexOf(e.value.values, n);
      if i < |e.value.values| {
        NamedRoundTrip(e.value, n, i);
      } else {
        UnnamedRoundTrip(e.value, n);
      }
    }
  }

  lemma NumberIsNoName(n: int)
    ensures !IsName(Decimal(n))
  {
    assert IsNumberChar(Decimal(n)[0]);
  }

  // -------------------------------------------------------------- simple texts

  function BoolText(b: bool): string { if b then "true" else "false" }

  function ParseBool(s: string): Option<bool> {
    if s == "true" then Some(true) else if s == "false" then Some(false) else None
  }

  function OidText(oid: Oid): string { "oid:" + Hex(oid) }

  function ParseOid(s: string): Option<Oid> {
    if "oid:0x" <= s then StrToULL(s[4..], 16) else None
  }

  lemma OidRoundTrip(oid: Oid)
    ensures ParseOid(OidText(oid)) == Some(oid)
    ensures All(OidText(oid), IsOidChar) && OidText(oid)[0] == 'o'
  {
    assert OidText(oid)[4..] == Hex(oid);
    assert OidText(oid) == "oid:0x" + Digits(oid, 16);
    StrToULLHex(oid);
  }

  predicate IsOidChar(c: char) { IsLowerHex(c) || c in {'o', 'i', ':', 'x'} }

  function AddressText(ip: IpCodec, a: Ip): Option<string> {
    match a
    case V4(b) => Some(ip.ntop4(b))
    case V6(b) => Some(ip.ntop6(b))
    case OtherFamily(_) => None
  }

  function ParseAddress(ip: IpCodec, s: string): Option<Ip> {
    match ip.pton4(s)
    case Some(b) => Some(V4(b))
    case None =>
      match ip.pton6(s)
      case Some(b) => Some(V6(b))
      case None => None
  }

  function MaskedText(address: string, bits: Option<nat>): Option<string> {
    match bits case None => None case Some(n) => Some(address + "/" + Decimal(n))
  }

  function PrefixText(ip: IpCodec, p: Prefix): Option<string> {
    match p
    case Prefix4(a, mask) => MaskedText(ip.ntop4(a), IpMask.MaskLength(mask))
    case Prefix6(a, mask) => MaskedText(ip.ntop6(a), IpMask.MaskLength(mask))
    case OtherPrefix(_) => None
  }

  function ParsePrefix(ip: IpCodec, s: string): Option<Prefix> {
    var tokens := Tokens(s, '/');
    if |tokens| != 2 then None
    else
      match DeserializeNumber(U8, tokens[1], false)
      case None => None
      case Some(bits) =>
        if bits < 0 then None
        else
          match ip.pton4(tokens[0])
          case Some(a) => if bits <= 32 then Some(Prefix4(a, IpMask.MaskOf(bits, 4))) else None
          case None =>
            match ip.pton6(tokens[0])
            case Some(a) => if bits <= 128 then Some(Prefix6(a, IpMask.MaskOf(bits, 16))) else None
            case None => None
  }

  function RangeText(lo: int, hi: int): string { Decimal(lo) + "," + Decimal(hi) }

  function ParseRange(k: NumKind, s: string): Option<(int, int)> {
    var tokens := Tokens(s, ',');
    if |tokens| != 2 then None
    else
      match (DeserializeNumber(k, tokens[0], false), DeserializeNumber(k, tokens[1], false))
      case (Some(lo), Some(hi)) => Some((lo, hi))
      case _ => None
  }

  lemma PrefixRoundTrip(ip: IpCodec, p: Prefix)
    requires Inverse(ip)
    ensures PrefixText(ip, p).Some? <==> StorableData(PrefixV(p))
    ensures PrefixText(ip, p).Some? ==> ParsePrefix(ip, PrefixText(ip, p).value) == Some(p)
  {
    match p
    case Prefix4(a, mask) =>
      if IpMask.Contiguous(mask) {
        IpMask.MaskLengthInverts(mask);
        SlashTokens(ip.ntop4(a), IpMask.Leading(mask, 0));
      }
    case Prefix6(a, mask) =>
      if IpMask.Contiguous(mask) {
        IpMask.MaskLengthInverts(mask);
        SlashTokens(ip.ntop6(a), IpMask.Leading(mask, 0));
      }
    case OtherPrefix(_) =>
  }

  lemma SlashTokens(address: string, bits: nat)
    requires IpText(address) && bits <= 128
    ensures Tokens(address + "/" + Decimal(bits), '/') == [address, Decimal(bits)]
    ensures DeserializeNumber(U8, Decimal(bits), false) == Some(bits)
  {
    assert '/' !in address && '/' !in Decimal(bits);
    TokensHead(address, '/', Decimal(bits));
    assert address + "/" + Decimal(bits) == address + ['/'] + Decimal(bits);
    TokensOne(Decimal(bits), '/');
    NumberRoundTrip(U8, bits, false);
  }

  lemma RangeRoundTrip(k: NumKind, lo: int, hi: int)
    requires Fits(k, lo) && Fits(k, hi)
    ensures ParseRange(k, RangeText(lo, hi)) == Some((lo, hi))
  {
    assert ',' !in Decimal(lo) && ',' !in Decimal(hi);
    TokensHead(Decimal(lo), ',', Decimal(hi));
    assert RangeText(lo, hi) == Decimal(lo) + [','] + Decimal(hi);
    TokensOne(Decimal(hi), ',');
    NumberRoundTrip(k, lo, false);
    NumberRoundTrip(k, hi, false);
  }

  // --------------------------------------------------------------------- items

  function OidPrinter(): Printer<Oid> { (oid: Oid) => Some(OidText(oid)) }
  function OidParser(): Parser<Oid> { s => ParseOid(s) }
  function EnumPrinter(e: Option<EnumMeta>): Printer<int> { n => Some(EnumText(e, n)) }
  function EnumParser(e: Option<EnumMeta>): Parser<int> { s => ParseEnum(e, s) }
  function NumberPrinter(): Printer<int> { n => Some(Decimal(n)) }
  function NumberParser(k: NumKind): Parser<int> { s => DeserializeNumber(k, s, false) }
  function IpPrinter(ip: IpCodec): Printer<Ip> { a => AddressText(ip, a) }
  function IpParser(ip: IpCodec): Parser<Ip> { s => ParseAddress(ip, s) }

  lemma OidItem(oid: Oid)
    ensures ItemInverts(oid, OidPrinter(), OidParser())
  {
    OidRoundTrip(oid);
  }

  lemma EnumItem(e: Option<EnumMeta>, n: int)
    requires EnumLawful(e) && Fits(S32, n)
    ensures ItemInverts(n, EnumPrinter(e), EnumParser(e))
  {
    EnumRoundTrip(e, n);
    EnumChars(e, n);
    assert EnumText(e, n) != NULL_TEXT by {
      assert 'n' in NULL_TEXT && !IsEnumChar('n');
    }
  }

  lemma NumberItem(k: NumKind, n: int)
    requires Fits(k, n)
    ensures ItemInverts(n, NumberPrinter(), NumberParser(k))
  {
    NumberRoundTrip(k, n, false);
    assert 'n' in NULL_TEXT && !IsNumberChar('n');
  }

  lemma IpItem(ip: IpCodec, a: Ip)
    requires Inverse(ip) && StorableIp(a)
    ensures ItemInverts(a, IpPrinter(ip), IpParser(ip))
  {
    assert 'n' in NULL_TEXT && !IsIpChar('n');
  }

  // ---------------------------------------------------------------------- data

  /** The value types that appear in an attribute and have a parser. */
  predicate Parsed(vt: ValueType) {
    match vt
    case PlainT(NumberListT(k)) => k !in {U64, S64}
    case PlainT(RangeT(k)) => k in {U32, S32}
    case PlainT(_) => true
    case FieldT(t) => AclParsed(t)
    case ActionT(t) => AclParsed(t)
  }

  predicate AclParsed(t: DataType) {
    match t
    case BoolT | MacT | Ip4T | Ip6T | OidT | OidListT => true
    case NumberT(k) => k !in {U64, S64}
    case _ => false
  }

  /** `sai_serialize_attr_value` on plain data, with countOnly false; None is an exception. */
  function DataText(c: Context, t: DataType, d: Data): Option<string>
    requires DataTyped(t, d)
  {
    match t
    case BoolT => Some(BoolText(d.b))
    case TextT => Some(CharData.Escape(CharData.CString(d.text)))
    case NumberT(k) => Some(if k == S32 then EnumText(c.enums, d.n) else Decimal(d.n))
    case MacT => Some(CharData.SerializeMac(d.mac))
    case Ip4T => Some(c.ip.ntop4(d.ip4))
    case Ip6T => Some(c.ip.ntop6(d.ip6))
    case PointerT => Some(Hex(d.ptr))
    case AddressT => AddressText(c.ip, d.ip)
    case PrefixT => PrefixText(c.ip, d.prefix)
    case OidT => Some(OidText(d.oid))
    case OidListT => ListText(d.oids, OidPrinter())
    case NumberListT(k) => ListText(d.numbers, if k == S32 then EnumPrinter(c.enums) else NumberPrinter())
    case RangeT(_) => Some(RangeText(d.lo, d.hi))
    case AddressListT => ListText(d.ips, IpPrinter(c.ip))
    case VlanListT => ListText(d.numbers, NumberPrinter())
    case CapabilityT =>
      match ListText(d.actions, EnumPrinter(c.actions))
      case None => None
      case Some(list) => Some(BoolText(d.mandatory) + ":" + list)
  }

  function Mapped<T, U>(x: Option<T>, f: T -> U): Option<U> {
    match x case None => None case Some(v) => Some(f(v))
  }

  function ParseCapability(c: Context, s: string): Option<Data> {
    var pos := IndexOf(s, ':');
    if pos == |s| then None
    else
      match (ParseBool(s[..pos]), ParseList(s[pos + 1..], EnumParser(c.actions)))
      case (Some(mandatory), Some(list)) => Some(CapabilityV(mandatory, list))
      case _ => None
  }

  /** `sai_deserialize_attr_value` on plain data, with countOnly false */
  function ParseData(c: Context, t: DataType, s: string): Option<Data> {
    match t
    case BoolT => Mapped(ParseBool(s), b => BoolV(b))
    case TextT => Mapped(CharData.ParseText(s), (text: Text32) => TextV(text))
    case NumberT(k) =>
      Mapped(if k == S32 then ParseEnum(c.enums, s) else DeserializeNumber(k, s, false), n => NumberV(n))
    case MacT => Mapped(CharData.ParseMac(s), (mac: Mac) => MacV(mac))
    case Ip4T => Mapped(c.ip.pton4(s), (a: Bytes4) => Ip4V(a))
    case Ip6T => Mapped(c.ip.pton6(s), (a: Bytes16) => Ip6V(a))
    case PointerT => Mapped(StrToULL(s, 16), (n: nat) => PointerV(n))
    case AddressT => Mapped(ParseAddress(c.ip, s), a => AddressV(a))
    case PrefixT => Mapped(ParsePrefix(c.ip, s), p => PrefixV(p))
    case OidT => Mapped(ParseOid(s), (oid: Oid) => OidV(oid))
    case OidListT => Mapped(ParseList(s, OidParser()), l => OidListV(l))
    case NumberListT(k) =>
      Mapped(ParseList(s, if k == S32 then EnumParser(c.enums) else NumberParser(k)), l => NumberListV(l))
    case RangeT(k) => Mapped(ParseRange(k, s), (r: (int, int)) => RangeV(r.0, r.1))
    case AddressListT => Mapped(ParseList(s, IpParser(c.ip)), l => AddressListV(l))
    case VlanListT => Mapped(ParseList(s, NumberParser(U16)), l => NumberListV(l))
    case CapabilityT => ParseCapability(c, s)
  }

  lemma NumberListRoundTrip(c: Context, k: NumKind, l: List<int>)
    requires EnumLawful(c.enums) && CountFits(l) && forall n <- l.Elements() :: Fits(k, n)
    ensures var show := if k == S32 then EnumPrinter(c.enums) else NumberPrinter();
            var read := if k == S32 then EnumParser(c.enums) else NumberParser(k);
            ListText(l, show).Some? && ParseList(ListText(l, show).value, read) == Some(CanonList(l))
  {
    if k == S32 {
      forall n | n in l.Elements() ensures ItemInverts(n, EnumPrinter(c.enums), EnumParser(c.enums)) {
        EnumItem(c.enums, n);
      }
      ListRoundTrip(l, EnumPrinter(c.enums), EnumParser(c.enums));
    } else {
      forall n | n in l.Elements() ensures ItemInverts(n, NumberPrinter(), NumberParser(k)) {
        NumberItem(k, n);
      }
      ListRoundTrip(l, NumberPrinter(), NumberParser(k));
    }
  }

  lemma VlanListRoundTrip(l: List<int>)
    requires CountFits(l) && forall n <- l.Elements() :: Fits(U16, n)
    ensures ListText(l, NumberPrinter()).Some?
    ensures ParseList(ListText(l, NumberPrinter()).value, NumberParser(U16)) == Some(CanonList(l))
  {
    forall n | n in l.Elements() ensures ItemInverts(n, NumberPrinter(), NumberParser(U16)) {
      NumberItem(U16, n);
    }
    ListRoundTrip(l, NumberPrinter(), NumberParser(U16));
  }

  lemma OidListRoundTrip(l: List<Oid>)
    requires CountFits(l)
    ensures ListText(l, OidPrinter()).Some?
    ensures ParseList(ListText(l, OidPrinter()).value, OidParser()) == Some(CanonList(l))
  {
    forall oid: Oid | oid in l.Elements() ensures ItemInverts(oid, OidPrinter(), OidParser()) {
      OidItem(oid);
    }
    ListRoundTrip(l, OidPrinter(), OidParser());
  }

  /** An address list prints exactly when all its addresses do. */
  lemma AddressListRoundTrip(ip: IpCodec, l: List<Ip>)
    requires Inverse(ip) && CountFits(l)
    ensures ListText(l, IpPrinter(ip)).Some? <==> StorableData(AddressListV(l))
    ensures StorableData(AddressListV(l)) ==>
      ParseList(ListText(l, IpPrinter(ip)).value, IpParser(ip)) == Some(CanonList(l))
  {
    JoinThrows(l.Elements(), IpPrinter(ip));
    if StorableData(AddressListV(l)) {
      forall a | a in l.Elements() ensures ItemInverts(a, IpPrinter(ip), IpParser(ip)) {
        IpItem(ip, a);
      }
      ListRoundTrip(l, IpPrinter(ip), IpParser(ip));
    } else {
      var a :| a in l.Elements() && !StorableIp(a);
      assert IpPrinter(ip)(a).None?;
    }
  }

  lemma CapabilityParts(c: Context, mandatory: bool, list: string, l: List<int>)
    requires ParseList(list, EnumParser(c.actions)) == Some(l)
    ensures ParseCapability(c, BoolText(mandatory) + ":" + list) == Some(CapabilityV(mandatory, l))
  {
    var s := BoolText(mandatory) + ":" + list;
    IndexOfSplit(BoolText(mandatory), ':', list);
    assert s == BoolText(mandatory) + [':'] + list;
    assert s[..|BoolText(mandatory)|] == BoolText(mandatory);
    assert s[|BoolText(mandatory)| + 1..] == list;
  }

  lemma CapabilityRoundTrip(c: Context, mandatory: bool, l: List<int>)
    requires EnumLawful(c.actions) && CountFits(l) && forall n <- l.Elements() :: Fits(S32, n)
    ensures ListText(l, EnumPrinter(c.actions)).Some?
    ensures ParseCapability(c, BoolText(mandatory) + ":" + ListText(l, EnumPrinter(c.actions)).value)
         == Some(CapabilityV(mandatory, CanonList(l)))
  {
    forall n | n in l.Elements() ensures ItemInverts(n, EnumPrinter(c.actions), EnumParser(c.actions)) {
      EnumItem(c.actions, n);
    }
    ListRoundTrip(l, EnumPrinter(c.actions), EnumParser(c.actions));
    CapabilityParts(c, mandatory, ListText(l, EnumPrinter(c.actions)).value, CanonList(l));
  }

  lemma ScalarRoundTrip(c: Context, t: DataType, d: Data)
    requires ContextLawful(c) && DataTyped(t, d)
    requires t.BoolT? || t.TextT? || t.NumberT? || t.MacT? || t.Ip4T? || t.Ip6T? || t.PointerT? || t.OidT?
    ensures DataText(c, t, d).Some? && ParseData(c, t, DataText(c, t, d).value) == Some(CanonData(d))
  {
    match t
    case BoolT =>
    case TextT => CharData.ChardataRoundTrip(d.text);
    case NumberT(k) =>
      EnumRoundTripIf(c.enums, k, d.n);
      NumberRoundTrip(k, d.n, false);
    case MacT => CharData.MacRoundTrip(d.mac);
    case Ip4T =>
    case Ip6T =>
    case PointerT => StrToULLHex(d.ptr);
    case OidT => OidRoundTrip(d.oid);
  }

  lemma EnumRoundTripIf(e: Option<EnumMeta>, k: NumKind, n: int)
    requires EnumLawful(e) && Fits(k, n)
    ensures k == S32 ==> ParseEnum(e, EnumText(e, n)) == Some(n)
  {
    if k == S32 {
      EnumRoundTrip(e, n);
    }
  }

  lemma ListDataRoundTrip(c: Context, t: DataType, d: Data)
    requires ContextLawful(c) && DataTyped(t, d)
    requires t.OidListT? || t.NumberListT? || t.VlanListT?
    ensures DataText(c, t, d).Some? && ParseData(c, t, DataText(c, t, d).value) == Some(CanonData(d))
  {
    match t
    case OidListT => OidListRoundTrip(d.oids);
    case NumberListT(k) => NumberListRoundTrip(c, k, d.numbers);
    case VlanListT => VlanListRoundTrip(d.numbers);
  }

  lemma AddressDataRoundTrip(c: Context, t: DataType, d: Data)
    requires ContextLawful(c) && DataTyped(t, d)
    requires t.AddressT? || t.PrefixT? || t.AddressListT?
    ensures DataText(c, t, d).Some? <==> StorableData(d)
    ensures StorableData(d) ==> ParseData(c, t, DataText(c, t, d).value) == Some(CanonData(d))
  {
    match t
    case AddressT =>
    case PrefixT => PrefixRoundTrip(c.ip, d.prefix);
    case AddressListT => AddressListRoundTrip(c.ip, d.ips);
  }

  lemma PairDataRoundTrip(c: Context, t: DataType, d: Data)
    requires ContextLawful(c) && DataTyped(t, d) && (t.RangeT? || t.CapabilityT?)
    ensures DataText(c, t, d).Some? && ParseData(c, t, DataText(c, t, d).value) == Some(CanonData(d))
  {
    match t
    case RangeT(k) => RangeRoundTrip(k, d.lo, d.hi);
    case CapabilityT => CapabilityRoundTrip(c, d.mandatory, d.actions);
  }

  /** Plain data prints exactly when it is storable, and parses back to its canonical form. */
  lemma DataRoundTrip(c: Context, t: DataType, d: Data)
    requires ContextLawful(c) && DataTyped(t, d)
    ensures DataText(c, t, d).Some? <==> StorableData(d)
    ensures StorableData(d) ==> ParseData(c, t, DataText(c, t, d).value) == Some(CanonData(d))
  {
    if t.AddressT? || t.PrefixT? || t.AddressListT? {
      AddressDataRoundTrip(c, t, d);
    } else if t.OidListT? || t.NumberListT? || t.VlanListT? {
      ListDataRoundTrip(c, t, d);
    } else if t.RangeT? || t.CapabilityT? {
      PairDataRoundTrip(c, t, d);
    } else {
      ScalarRoundTrip(c, t, d);
    }
  }

  // ------------------------------------------------------- ACL fields and actions

  const DISABLED := "disabled"
  const MASK_TEXT := "&mask:"

  /** `sai_serialize_number(mask, true)` and its like for the kinds printed with a mask */
  function MaskText(ip: IpCodec, mask: Data): Option<string> {
    match mask
    case NumberV(n) => Some(SerializeNumber(n, true))
    case MacV(mac) => Some(CharData.SerializeMac(mac))
    case Ip4V(a) => Some(ip.ntop4(a))
    case Ip6V(a) => Some(ip.ntop6(a))
    case _ => None
  }

  function ParseMask(ip: IpCodec, t: DataType, s: string): Option<Data> {
    match t
    case NumberT(k) => Mapped(DeserializeNumber(k, s, true), n => NumberV(n))
    case MacT => Mapped(CharData.ParseMac(s), (mac: Mac) => MacV(mac))
    case Ip4T => Mapped(ip.pton4(s), (a: Bytes4) => Ip4V(a))
    case Ip6T => Mapped(ip.pton6(s), (a: Bytes16) => Ip6V(a))
    case _ => None
  }

  predicate Masked(t: DataType) { t.NumberT? || t.MacT? || t.Ip4T? || t.Ip6T? }

  function FieldText(c: Context, t: DataType, enable: bool, d: Data, mask: Data): Option<string>
    requires DataTyped(t, d)
  {
    if !enable then Some(DISABLED)
    else if !AclParsed(t) then None
    else if !Masked(t) then DataText(c, t, d)
    else
      match (DataText(c, t, d), MaskText(c.ip, mask))
      case (Some(a), Some(b)) => Some(a + MASK_TEXT + b)
      case _ => None
  }

  /** `std::string::find("&mask:")`; `|s|` stands for npos. */
  function MaskAt(s: string): (i: nat)
    ensures i <= |s| && (i < |s| ==> MASK_TEXT <= s[i..])
  {
    if s == "" || MASK_TEXT <= s then 0 else 1 + MaskAt(s[1..])
  }

  /** The all-zero value the parser starts from. */
  function ZeroOf(t: DataType): Data {
    match t
    case BoolT => BoolV(false)
    case TextT => TextV(ZERO_TEXT)
    case NumberT(_) => NumberV(0)
    case MacT => MacV([0, 0, 0, 0, 0, 0])
    case Ip4T => Ip4V([0, 0, 0, 0])
    case Ip6T => Ip6V(ZERO_IP6)
    case PointerT => PointerV(0)
    case AddressT => AddressV(V4([0, 0, 0, 0]))
    case PrefixT => PrefixV(Prefix4([0, 0, 0, 0], [0, 0, 0, 0]))
    case OidT => OidV(NULL_OID)
    case OidListT => OidListV(Null(0))
    case NumberListT(_) => NumberListV(Null(0))
    case RangeT(_) => RangeV(0, 0)
    case AddressListT => AddressListV(Null(0))
    case VlanListT => NumberListV(Null(0))
    case CapabilityT => CapabilityV(false, Null(0))
  }

  function ParseField(c: Context, t: DataType, s: string): Option<Value> {
    if s == DISABLED then Some(Field(false, ZeroOf(t), ZeroOf(t)))
    else if !AclParsed(t) then None
    else
      var pos := MaskAt(s);
      var field := s[..pos];
      var mask := if pos == |s| then "" else s[pos + |MASK_TEXT|..];
      match ParseData(c, t, field)
      case None => None
      case Some(d) =>
        if !Masked(t) then Some(Field(true, d, ZeroOf(t)))
        else
          match ParseMask(c.ip, t, mask)
          case None => None
          case Some(m) => Some(Field(true, d, m))
  }

  function ActionText(c: Context, t: DataType, enable: bool, d: Data): Option<string>
    requires DataTyped(t, d)
  {
    if !enable then Some(DISABLED) else if !AclParsed(t) then None else DataText(c, t, d)
  }

  function ParseAction(c: Context, t: DataType, s: string): Option<Value> {
    if s == DISABLED then Some(Action(false, ZeroOf(t)))
    else if !AclParsed(t) then None
    else match ParseData(c, t, s) case None => None case Some(d) => Some(Action(true, d))
  }

  // -------------------------------------------------------------------- values

  /** `sai_serialize_attr_value` with countOnly false; None is an exception. */
  function Serialize(c: Context, vt: ValueType, v: Value): Option<string>
    requires WellTyped(vt, v)
  {
    match vt
    case PlainT(t) => DataText(c, t, v.data)
    case FieldT(t) => FieldText(c, t, v.enable, v.data, v.mask)
    case ActionT(t) => ActionText(c, t, v.enable, v.data)
  }

  /** `sai_deserialize_attr_value` with countOnly false; None is an exception. */
  function Deserialize(c: Context, vt: ValueType, s: string): Option<Value> {
    match vt
    case PlainT(t) => Mapped(ParseData(c, t, s), d => Plain(d))
    case FieldT(t) => ParseField(c, t, s)
    case ActionT(t) => ParseAction(c, t, s)
  }

  /** Neither an ampersand nor the text of disabled data. */
  predicate DataOnly(s: string) { '&' !in s && s != DISABLED }

  predicate IsAclChar(c: char) { IsEnumChar(c) || CharData.IsMacChar(c) || IsIpChar(c) }

  lemma AclChars(s: string)
    requires All(s, IsAclChar)
    ensures DataOnly(s)
  {
    assert 's' in DISABLED && !IsAclChar('s') && !IsAclChar('&');
  }

  lemma MaskedDataOnly(c: Context, t: DataType, d: Data)
    requires ContextLawful(c) && DataTyped(t, d) && Masked(t)
    ensures DataText(c, t, d).Some? && DataOnly(DataText(c, t, d).value)
  {
    match t {
      case NumberT(k) => EnumChars(if k == S32 then c.enums else None, d.n);
      case MacT => CharData.MacChars(d.mac);
      case Ip4T =>
      case Ip6T =>
    }
    AclChars(DataText(c, t, d).value);
  }

  lemma UnmaskedDataOnly(c: Context, t: DataType, d: Data)
    requires ContextLawful(c) && DataTyped(t, d) && AclParsed(t) && !Masked(t)
    ensures DataText(c, t, d).Some? && DataOnly(DataText(c, t, d).value)
  {
    match t
    case BoolT =>
    case OidT => OidRoundTrip(d.oid);
    case OidListT => OidListDataOnly(d.oids);
  }

  predicate IsOidListChar(c: char) { IsOidChar(c) || c in {',', 'n', 'u', 'l'} }

  lemma OidListDataOnly(l: List<Oid>)
    ensures ListText(l, OidPrinter()).Some? && DataOnly(ListText(l, OidPrinter()).value)
  {
    JoinOidChars(l.Elements());
    assert All(ListText(l, OidPrinter()).value, IsOidListChar);
    assert 's' in DISABLED && !IsOidListChar('s') && !IsOidListChar('&');
  }

  lemma {:induction false} JoinOidChars(oids: seq<Oid>)
    ensures JoinItems(oids, OidPrinter()).Some?
    ensures All(JoinItems(oids, OidPrinter()).value, IsOidListChar)
  {
    if oids != [] {
      OidRoundTrip(oids[0]);
      JoinOidChars(oids[1..]);
    }
  }

  lemma {:induction false} MaskAtAbsent(s: string)
    requires '&' !in s
    ensures MaskAt(s) == |s|
  {
    if s != "" {
      assert s[0] in s && MASK_TEXT[0] == '&';
      MaskAtAbsent(s[1..]);
    }
  }

  lemma {:induction false} MaskAtSplit(a: string, b: string)
    requires '&' !in a
    ensures MaskAt(a + MASK_TEXT + b) == |a|
  {
    var s := a + MASK_TEXT + b;
    if a == "" {
      assert MASK_TEXT <= s;
    } else {
      assert s[0] == a[0] && a[0] in a && MASK_TEXT[0] == '&';
      assert s[1..] == a[1..] + MASK_TEXT + b;
      MaskAtSplit(a[1..], b);
    }
  }

  lemma MaskRoundTrip(c: Context, t: DataType, mask: Data)
    requires Inverse(c.ip) && DataTyped(t, mask) && Masked(t)
    ensures MaskText(c.ip, mask).Some?
    ensures ParseMask(c.ip, t, MaskText(c.ip, mask).value) == Some(mask)
  {
    match t
    case NumberT(k) => NumberRoundTrip(k, mask.n, true);
    case MacT => CharData.MacRoundTrip(mask.mac);
    case Ip4T =>
    case Ip6T =>
  }

  lemma AclStorable(t: DataType, d: Data)
    requires DataTyped(t, d) && AclParsed(t)
    ensures StorableData(d)
  {
  }

  lemma ZeroOfTyped(t: DataType, d: Data)
    requires DataTyped(t, d)
    ensures ZeroOf(t) == Zero(d)
  {
  }

  function BothParts(d: Option<Data>, mask: Option<Data>): Option<Value> {
    match (d, mask)
    case (Some(x), Some(y)) => Some(Field(true, x, y))
    case _ => None
  }

  lemma ParseMaskedField(c: Context, t: DataType, a: string, b: string)
    requires AclParsed(t) && Masked(t) && '&' !in a
    ensures ParseField(c, t, a + MASK_TEXT + b) == BothParts(ParseData(c, t, a), ParseMask(c.ip, t, b))
  {
    var s := a + MASK_TEXT + b;
    MaskAtSplit(a, b);
    assert s[|a|] == '&' && '&' !in DISABLED;
    assert s[..|a|] == a && s[|a| + |MASK_TEXT|..] == b;
  }

  lemma MaskedFieldRoundTrip(c: Context, t: DataType, d: Data, mask: Data)
    requires ContextLawful(c) && DataTyped(t, d) && DataTyped(t, mask) && AclParsed(t) && Masked(t)
    ensures FieldText(c, t, true, d, mask).Some?
    ensures ParseField(c, t, FieldText(c, t, true, d, mask).value) == Some(Field(true, CanonData(d), mask))
  {
    DataRoundTrip(c, t, d);
    MaskedDataOnly(c, t, d);
    MaskRoundTrip(c, t, mask);
    ParseMaskedField(c, t, DataText(c, t, d).value, MaskText(c.ip, mask).value);
  }

  lemma UnmaskedFieldRoundTrip(c: Context, t: DataType, d: Data, mask: Data)
    requires ContextLawful(c) && DataTyped(t, d) && DataTyped(t, mask) && AclParsed(t) && !Masked(t)
    ensures FieldText(c, t, true, d, mask).Some?
    ensures ParseField(c, t, FieldText(c, t, true, d, mask).value) == Some(Field(true, CanonData(d), Zero(mask)))
  {
    DataRoundTrip(c, t, d);
    AclStorable(t, d);
    UnmaskedDataOnly(c, t, d);
    ZeroOfTyped(t, mask);
    var s := DataText(c, t, d).value;
    MaskAtAbsent(s);
    assert s[..|s|] == s;
  }

  lemma FieldRoundTrip(c: Context, t: DataType, enable: bool, d: Data, mask: Data)
    requires ContextLawful(c) && DataTyped(t, d) && DataTyped(t, mask) && AclParsed(t)
    ensures FieldText(c, t, enable, d, mask).Some?
    ensures ParseField(c, t, FieldText(c, t, enable, d, mask).value) == Some(Canon(Field(enable, d, mask)))
  {
    if !enable {
      ZeroOfTyped(t, d);
      ZeroOfTyped(t, mask);
    } else if Masked(t) {
      MaskedFieldRoundTrip(c, t, d, mask);
    } else {
      UnmaskedFieldRoundTrip(c, t, d, mask);
    }
  }

  lemma ActionRoundTrip(c: Context, t: DataType, enable: bool, d: Data)
    requires ContextLawful(c) && DataTyped(t, d) && AclParsed(t)
    ensures ActionText(c, t, enable, d).Some?
    ensures ParseAction(c, t, ActionText(c, t, enable, d).value) == Some(Canon(Action(enable, d)))
  {
    if !enable {
      ZeroOfTyped(t, d);
    } else {
      DataRoundTrip(c, t, d);
      AclStorable(t, d);
      if Masked(t) {
        MaskedDataOnly(c, t, d);
      } else {
        UnmaskedDataOnly(c, t, d);
      }
    }
  }

  /** The attribute value round trip: for every value type with a parser, printing throws
      exactly when the value is not storable, and what is printed parses back to the
      canonical form of the value. */
  lemma ValueRoundTrip(c: Context, vt: ValueType, v: Value)
    requires ContextLawful(c) && Parsed(vt) && WellTyped(vt, v)
    ensures Serialize(c, vt, v).Some? <==> Storable(v)
    ensures Storable(v) ==> Deserialize(c, vt, Serialize(c, vt, v).value) == Some(Canon(v))
  {
    match vt
    case PlainT(t) => DataRoundTrip(c, t, v.data);
    case FieldT(t) => FieldRoundTrip(c, t, v.enable, v.data, v.mask);
    case ActionT(t) => ActionRoundTrip(c, t, v.enable, v.data);
  }

  /** Values of one type that print alike are stored alike. */
  lemma SameTextSameValue(c: Context, vt: ValueType, v: Value, w: Value)
    requires ContextLawful(c) && Parsed(vt) && WellTyped(vt, v) && WellTyped(vt, w)
    requires Storable(v) && Serialize(c, vt, v) == Serialize(c, vt, w)
    ensures Canon(v) == Canon(w)
  {
    ValueRoundTrip(c, vt, v);
    ValueRoundTrip(c, vt, w);
  }
}
