/** What the printers write, character by character: the laws of each text form, and the
    samples of the repository's own serialization tests (meta/tests.cpp). */
module TextRules {
  import opened Sai
  import opened NumberText
  import opened CountedList
  import opened ValueText
  import opened KeyName
  import CharData
  import IpMask

  const LOWER := "0123456789abcdef"
  const UPPER := "0123456789ABCDEF"

  // ------------------------------------------------------------------ numbers

  /** Decimal digits after a minus sign for negative numbers */
  lemma DecimalRule(n: int)
    ensures Decimal(n) ==
      if n < 0 then "-" + Decimal(-n)
      else if n < 10 then [LOWER[n]]
      else Decimal(n / 10) + [LOWER[n % 10]]
  {
  }

  /** Lower-case hexadecimal digits after `0x` */
  lemma HexRule(n: nat)
    ensures Hex(n) == if n < 16 then "0x" + [LOWER[n]] else Hex(n / 16) + [LOWER[n % 16]]
  {
  }

  // -------------------------------------------------------------- bytes and MAC

  lemma HexPairRule(b: Byte)
    ensures CharData.HexPair(b) == [UPPER[b / 16], UPPER[b % 16]]
  {
  }

  lemma EscapeByteRule(b: Byte)
    ensures CharData.EscapeByte(b) ==
      if 97 <= b <= 122 || 65 <= b <= 90 || 48 <= b <= 57 then [b as char]
      else if b == 92 then "\\\\"
      else "\\x" + [UPPER[b / 16], UPPER[b % 16]]
  {
    HexPairRule(b);
  }

  /** Letters and digits stand for themselves, a backslash (92) is doubled, and any other byte
      is written with two upper-case hexadecimal digits. */
  lemma EscapeRule(bytes: seq<Byte>, b: Byte)
    ensures CharData.Escape([]) == ""
    ensures CharData.Escape(bytes + [b]) == CharData.Escape(bytes) +
      if 97 <= b <= 122 || 65 <= b <= 90 || 48 <= b <= 57 then [b as char]
      else if b == 92 then "\\\\"
      else "\\x" + [UPPER[b / 16], UPPER[b % 16]]
  {
    assert (bytes + [b])[..|bytes|] == bytes;
    EscapeByteRule(b);
  }

  /** Six pairs of upper-case hexadecimal digits between colons */
  lemma MacRule(mac: Mac)
    ensures CharData.SerializeMac(mac) ==
      [UPPER[mac[0] / 16], UPPER[mac[0] % 16]] + ":" + [UPPER[mac[1] / 16], UPPER[mac[1] % 16]] + ":" +
      [UPPER[mac[2] / 16], UPPER[mac[2] % 16]] + ":" + [UPPER[mac[3] / 16], UPPER[mac[3] % 16]] + ":" +
      [UPPER[mac[4] / 16], UPPER[mac[4] % 16]] + ":" + [UPPER[mac[5] / 16], UPPER[mac[5] % 16]]
  {
    forall j | 0 <= j < 6 {
      HexPairRule(mac[j]);
    }
  }

  // -------------------------------------------------------------------- lists

  function Commas(texts: seq<string>): string {
    if texts == [] then "" else if |texts| == 1 then texts[0] else texts[0] + "," + Commas(texts[1..])
  }

  lemma {:induction false} ItemsRule<T>(items: seq<T>, show: Printer<T>, texts: seq<string>)
    requires |texts| == |items| && forall i :: 0 <= i < |items| ==> show(items[i]) == Some(texts[i])
    ensures JoinItems(items, show) == Some(Commas(texts))
  {
    if items != [] {
      ItemsRule(items[1..], show, texts[1..]);
    }
  }

  /** The count and the items between commas, or null when there are none */
  lemma ListRule<T>(l: List<T>, show: Printer<T>, texts: seq<string>)
    requires |texts| == |l.Elements()| && forall i :: 0 <= i < |texts| ==> show(l.Elements()[i]) == Some(texts[i])
    ensures ListText(l, show) == Some(Decimal(l.Count()) + ":" + if texts == [] then "null" else Commas(texts))
  {
    ItemsRule(l.Elements(), show, texts);
  }

  // -------------------------------------------------------------------- values

  /** Plain values that are not lists */
  lemma PlainTextRule(c: Context, t: DataType, d: Data)
    requires DataTyped(t, d) && EnumLawful(c.enums)
    ensures match d
            case BoolV(b) => DataText(c, t, d) == Some(if b then "true" else "false")
            case TextV(text) => DataText(c, t, d) == Some(CharData.Escape(CharData.CString(text)))
            case NumberV(n) => DataText(c, t, d).Some?
                               && NamesNumber(if t == NumberT(S32) then c.enums else None, n, DataText(c, t, d).value)
            case MacV(mac) => DataText(c, t, d) == Some(CharData.SerializeMac(mac))
            case Ip4V(a) => DataText(c, t, d) == Some(c.ip.ntop4(a))
            case Ip6V(a) => DataText(c, t, d) == Some(c.ip.ntop6(a))
            case PointerV(ptr) => DataText(c, t, d) == Some(Hex(ptr))
            case AddressV(V4(a)) => DataText(c, t, d) == Some(c.ip.ntop4(a))
            case AddressV(V6(a)) => DataText(c, t, d) == Some(c.ip.ntop6(a))
            case OidV(oid) => DataText(c, t, d) == Some("oid:" + Hex(oid))
            case RangeV(lo, hi) => DataText(c, t, d) == Some(Decimal(lo) + "," + Decimal(hi))
            case _ => true
  {
    if d.NumberV? {
      EnumNames(if t == NumberT(S32) then c.enums else None, d.n);
    }
  }

  /** A prefix is its address, a slash and the length its mask expands from. */
  lemma PrefixRule4(c: Context, a: Bytes4, mask: Bytes4, bits: nat)
    requires bits <= 32 && mask == IpMask.MaskOf(bits, 4)
    ensures DataText(c, PrefixT, PrefixV(Prefix4(a, mask))) == Some(c.ip.ntop4(a) + "/" + Decimal(bits))
  {
    IpMask.MaskLengthExpanded(mask, bits);
  }

  lemma PrefixRule6(c: Context, a: Bytes16, mask: Bytes16, bits: nat)
    requires bits <= 128 && mask == IpMask.MaskOf(bits, 16)
    ensures DataText(c, PrefixT, PrefixV(Prefix6(a, mask))) == Some(c.ip.ntop6(a) + "/" + Decimal(bits))
  {
    IpMask.MaskLengthExpanded(mask, bits);
  }

  lemma NamesUnique(e: Option<EnumMeta>, n: int, s: string)
    requires EnumLawful(e) && NamesNumber(e, n, s)
    ensures s == EnumText(e, n)
  {
    EnumNames(e, n);
  }

  lemma OidListRule(c: Context, l: List<Oid>, texts: seq<string>)
    requires CountFits(l) && |texts| == |l.Elements()|
    requires forall i :: 0 <= i < |texts| ==> texts[i] == "oid:" + Hex(l.Elements()[i])
    ensures DataText(c, OidListT, OidListV(l))
         == Some(Decimal(l.Count()) + ":" + if texts == [] then "null" else Commas(texts))
  {
    ListRule(l, OidPrinter(), texts);
  }

  /** Numbers of an enumeration are named in lists too. */
  lemma NumberListRule(c: Context, k: NumKind, l: List<int>, texts: seq<string>)
    requires DataTyped(NumberListT(k), NumberListV(l)) && EnumLawful(c.enums) && |texts| == |l.Elements()|
    requires forall i :: 0 <= i < |texts| ==>
               NamesNumber(if k == S32 then c.enums else None, l.Elements()[i], texts[i])
    ensures DataText(c, NumberListT(k), NumberListV(l))
         == Some(Decimal(l.Count()) + ":" + if texts == [] then "null" else Commas(texts))
  {
    forall i | 0 <= i < |texts|
      ensures EnumText(if k == S32 then c.enums else None, l.Elements()[i]) == texts[i]
    {
      NamesUnique(if k == S32 then c.enums else None, l.Elements()[i], texts[i]);
    }
    ListRule(l, if k == S32 then EnumPrinter(c.enums) else NumberPrinter(), texts);
  }

  /** The capability: whether an action is mandatory, a colon, and the list of actions */
  lemma CapabilityRule(c: Context, mandatory: bool, l: List<int>, texts: seq<string>)
    requires DataTyped(CapabilityT, CapabilityV(mandatory, l)) && EnumLawful(c.actions) && |texts| == |l.Elements()|
    requires forall i :: 0 <= i < |texts| ==> NamesNumber(c.actions, l.Elements()[i], texts[i])
    ensures DataText(c, CapabilityT, CapabilityV(mandatory, l))
         == Some((if mandatory then "true" else "false") + ":"
                 + (Decimal(l.Count()) + ":" + if texts == [] then "null" else Commas(texts)))
  {
    forall i | 0 <= i < |texts| ensures EnumText(c.actions, l.Elements()[i]) == texts[i] {
      NamesUnique(c.actions, l.Elements()[i], texts[i]);
    }
    ListRule(l, EnumPrinter(c.actions), texts);
  }

  /** A disabled ACL value is a word; an enabled action is its data, and so is an enabled
      field without a mask. */
  lemma AclTextRule(c: Context, t: DataType, d: Data, mask: Data)
    requires DataTyped(t, d) && DataTyped(t, mask)
    ensures Serialize(c, FieldT(t), Field(false, d, mask)) == Some("disabled")
    ensures Serialize(c, ActionT(t), Action(false, d)) == Some("disabled")
    ensures t in {BoolT, OidT, OidListT} ==> Serialize(c, FieldT(t), Field(true, d, mask)) == DataText(c, t, d)
    ensures t in {BoolT, OidT, OidListT, MacT, Ip4T, Ip6T} || (t.NumberT? && t.kind !in {U64, S64}) ==>
              Serialize(c, ActionT(t), Action(true, d)) == DataText(c, t, d)
  {
  }

  /** An enabled field with a mask is the data, a marker and the mask, whose number is the
      hexadecimal of its 64-bit pattern. */
  lemma MaskedTextRule(c: Context, t: DataType, d: Data, mask: Data)
    requires DataTyped(t, d) && DataTyped(t, mask) && DataText(c, t, d).Some?
    requires t in {MacT, Ip4T, Ip6T} || (t.NumberT? && t.kind !in {U64, S64})
    ensures Serialize(c, FieldT(t), Field(true, d, mask)) == Some(DataText(c, t, d).value + "&mask:" +
              match mask
              case MacV(mac) => CharData.SerializeMac(mac)
              case Ip4V(a) => c.ip.ntop4(a)
              case Ip6V(a) => c.ip.ntop6(a)
              case NumberV(n) => Hex(if n < 0 then n + TWO_64 else n)
              case _ => "")
  {
    if mask.NumberV? {
      assert mask.n % TWO_64 == if mask.n < 0 then mask.n + TWO_64 else mask.n;
    }
  }

  // ---------------------------------------------------------------------- keys

  /** A JSON object of three strings */
  function Json(a: string, x: string, b: string, y: string, c: string, z: string): string {
    "{\"" + a + "\":\"" + x + "\",\"" + b + "\":\"" + y + "\",\"" + c + "\":\"" + z + "\"}"
  }

  /** Keys: the name of the object type, a colon, and the oid or a JSON object whose members
      are in alphabetical order. */
  lemma OidKeyRule(n: Names, t: ObjectType, oid: Oid, name: string)
    requires NamesLawful(n) && NamesNumber(n.types, t, name) && KeyPrints(OidKey(t, oid))
    ensures SerializeKey(n, OidKey(t, oid)) == Some(name + ":" + ("oid:" + Hex(oid)))
  {
    NamesUnique(n.types, t, name);
  }

  lemma FdbKeyRule(n: Names, sw: Oid, mac: Mac, bv: Oid, name: string)
    requires NamesLawful(n) && NamesNumber(n.types, FDB_ENTRY, name)
    ensures SerializeKey(n, FdbKey(sw, mac, bv))
         == Some(name + ":" + Json("bvid", "oid:" + Hex(bv), "mac", CharData.SerializeMac(mac),
                                   "switch_id", "oid:" + Hex(sw)))
  {
    NamesUnique(n.types, FDB_ENTRY, name);
    DumpThree("bvid", OidText(bv), "mac", CharData.SerializeMac(mac), "switch_id", OidText(sw));
  }

  lemma NeighborKeyRule(n: Names, sw: Oid, rif: Oid, ip: Ip, address: string, name: string)
    requires NamesLawful(n) && NamesNumber(n.types, NEIGHBOR_ENTRY, name)
    requires !ip.OtherFamily? && address == if ip.V4? then n.ip.ntop4(ip.b4) else n.ip.ntop6(ip.b16)
    ensures SerializeKey(n, NeighborKey(sw, rif, ip))
         == Some(name + ":" + Json("ip", address, "rif", "oid:" + Hex(rif), "switch_id", "oid:" + Hex(sw)))
  {
    NamesUnique(n.types, NEIGHBOR_ENTRY, name);
    DumpThree("ip", address, "rif", OidText(rif), "switch_id", OidText(sw));
  }

  lemma RouteKeyRule(n: Names, sw: Oid, vr: Oid, dest: Prefix, text: string, name: string)
    requires NamesLawful(n) && NamesNumber(n.types, ROUTE_ENTRY, name) && PrefixText(n.ip, dest) == Some(text)
    ensures SerializeKey(n, RouteKey(sw, vr, dest))
         == Some(name + ":" + Json("dest", text, "switch_id", "oid:" + Hex(sw), "vr", "oid:" + Hex(vr)))
  {
    NamesUnique(n.types, ROUTE_ENTRY, name);
    DumpThree("dest", text, "switch_id", OidText(sw), "vr", OidText(vr));
  }

  lemma DumpThree(a: string, x: string, b: string, y: string, c: string, z: string)
    ensures Dump([(a, x), (b, y), (c, z)]) == Json(a, x, b, y, c, z)
  {
    var fields := [(a, x), (b, y), (c, z)];
    assert fields[1..] == [(b, y), (c, z)] && fields[1..][1..] == [(c, z)];
    assert MembersText([(c, z)]) == c + "\":\"" + z + "\"" + "}";
    assert MembersText(fields[1..]) == b + "\":\"" + y + "\"" + ",\"" + MembersText([(c, z)]);
    JsonText(a, x, b, y, c, z);
  }

  lemma JsonText(a: string, x: string, b: string, y: string, c: string, z: string)
    ensures "{\"" + (a + "\":\"" + x + "\"" + ",\"" + (b + "\":\"" + y + "\"" + ",\"" + (c + "\":\"" + z + "\"" + "}")))
         == Json(a, x, b, y, c, z)
  {
  }

  // ------------------------------------------------------------------- samples

  lemma NumberSamples()
    ensures Decimal(42) == "42" && Decimal(-1) == "-1" && Decimal(100) == "100"
    ensures Hex(0x1) == "0x1" && Hex(0x42) == "0x42" && Hex(0x77) == "0x77"
  {
    DecimalRule(42);
    DecimalRule(100);
    DecimalRule(10);
    HexRule(0x42);
    HexRule(0x77);
  }

  /** Texts that do not parse: no boolean, digits after a decimal number, a bad or cut
      escape. */
  lemma RefusedSamples()
    ensures ParseBool("xx") == None
    ensures DeserializeNumber(U64, "2a", false) == None
    ensures CharData.ParseText("\\x2g") == None && CharData.ParseText("\\x2") == None
    ensures CharData.ParseText("\\s45") == None
  {
    assert "2a"[1] == 'a' && !IsDigitOf('a', 10);
    assert SkipSpace("2a") == "2a";
  }
}
