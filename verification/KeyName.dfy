/** Object keys as text. The metadata database indexes its maps by these texts
    (`sai_serialize_object_meta_key`); here they are proved to be one-to-one with the
    structured keys the rest of the model uses. Entries are JSON objects with their
    members in alphabetical order, as the JSON library dumps them. */
module KeyName {
  import opened Sai
  import opened Stored
  import opened NumberText
  import opened CountedList
  import opened ValueText
  import CharData
  import IpMask

  /** The enumeration of object types and the address codec. */
  datatype Names = Names(ip: IpCodec, types: Option<EnumMeta>)

  ghost predicate NamesLawful(n: Names) { Inverse(n.ip) && EnumLawful(n.types) }

  // ----------------------------------------------------------- flat JSON objects

  type Field = (string, string)

  predicate PlainText(s: string) { '"' !in s && '\\' !in s }

  /** What follows the opening brace and quote. */
  function MembersText(fields: seq<Field>): string
    requires fields != []
  {
    fields[0].0 + "\":\"" + fields[0].1 + "\"" +
    if |fields| == 1 then "}" else ",\"" + MembersText(fields[1..])
  }

  /** `json::dump` of an object whose members are plain strings */
  function Dump(fields: seq<Field>): string
    requires fields != []
  {
    "{\"" + MembersText(fields)
  }

  /** The tokens between quotes: name, colon, value, comma or brace. */
  function ReadMembers(tokens: seq<string>): Option<map<string, string>> {
    if |tokens| < 4 || tokens[1] != ":" then None
    else
      var member := map[tokens[0] := tokens[2]];
      if tokens[3] == "}" then (if |tokens| == 4 then Some(member) else None)
      else if tokens[3] != "," then None
      else
        match ReadMembers(tokens[4..])
        case None => None
        case Some(rest) => Some(member + rest)
  }

  /** `json::parse` on compact objects of plain strings */
  function ParseObject(s: string): Option<map<string, string>> {
    var tokens := Tokens(s, '"');
    if '\\' in s || tokens == [] || tokens[0] != "{" then None else ReadMembers(tokens[1..])
  }

  function Object(fields: seq<Field>): map<string, string> {
    if fields == [] then map[] else map[fields[0].0 := fields[0].1] + Object(fields[1..])
  }

  predicate PlainField(f: Field) { PlainText(f.0) && PlainText(f.1) && f.0 != "" && f.1 != "" }

  predicate PlainFields(fields: seq<Field>) {
    forall f <- fields :: PlainField(f)
  }

  lemma {:induction false} MemberTokens(fields: seq<Field>)
    requires fields != [] && PlainFields(fields)
    ensures Tokens(MembersText(fields), '"') == [fields[0].0, ":", fields[0].1] +
      if |fields| == 1 then ["}"] else [","] + Tokens(MembersText(fields[1..]), '"')
  {
    var name, value := fields[0].0, fields[0].1;
    assert fields[0] in fields;
    var rest := if |fields| == 1 then "}" else ",\"" + MembersText(fields[1..]);
    if |fields| == 1 {
      TokensOne("}", '"');
    } else {
      TokensHead(",", '"', MembersText(fields[1..]));
      assert rest == "," + ['"'] + MembersText(fields[1..]);
    }
    MemberHead(name, value, rest);
  }

  lemma MemberHead(name: string, value: string, rest: string)
    requires PlainText(name) && PlainText(value)
    ensures Tokens(name + "\":\"" + value + "\"" + rest, '"') == [name, ":", value] + Tokens(rest, '"')
  {
    var a := value + ['"'] + rest;
    var b := ":" + ['"'] + a;
    TokensHead(value, '"', rest);
    TokensHead(":", '"', a);
    TokensHead(name, '"', b);
    Regroup(name, value, rest);
    JoinThree(name, value, Tokens(rest, '"'));
  }

  lemma JoinThree(name: string, value: string, tokens: seq<string>)
    ensures [name] + ([":"] + ([value] + tokens)) == [name, ":", value] + tokens
  {
  }

  lemma Regroup(name: string, value: string, rest: string)
    ensures name + "\":\"" + value + "\"" + rest == name + ['"'] + (":" + ['"'] + (value + ['"'] + rest))
  {
    assert "\":\"" == ['"'] + ":" + ['"'];
  }

  lemma ReadOne(name: string, value: string)
    ensures ReadMembers([name, ":", value] + ["}"]) == Some(map[name := value])
  {
  }

  lemma ReadMore(name: string, value: string, rest: seq<string>)
    ensures ReadMembers([name, ":", value] + ([","] + rest)) ==
      match ReadMembers(rest) case None => None case Some(o) => Some(map[name := value] + o)
  {
    var tokens := [name, ":", value] + ([","] + rest);
    assert tokens[4..] == rest;
    if |tokens| == 4 {
      assert rest == [];
    }
  }

  lemma {:induction false} MembersRoundTrip(fields: seq<Field>)
    requires fields != [] && PlainFields(fields)
    ensures ReadMembers(Tokens(MembersText(fields), '"')) == Some(Object(fields))
  {
    MemberTokens(fields);
    if |fields| == 1 {
      ReadOne(fields[0].0, fields[0].1);
      var none: map<string, string> := map[];
      assert fields[1..] == [] && Object(fields[1..]) == none;
      assert Object(fields) == map[fields[0].0 := fields[0].1] + none == map[fields[0].0 := fields[0].1];
    } else {
      MembersRoundTrip(fields[1..]);
      ReadMore(fields[0].0, fields[0].1, Tokens(MembersText(fields[1..]), '"'));
    }
  }

  lemma {:induction false} MembersPlain(fields: seq<Field>)
    requires fields != [] && PlainFields(fields)
    ensures '\\' !in MembersText(fields)
  {
    assert fields[0] in fields;
    if |fields| > 1 {
      MembersPlain(fields[1..]);
    }
  }

  /** Dumping and parsing a flat object gives its members back. */
  lemma ObjectRoundTrip(fields: seq<Field>)
    requires fields != [] && PlainFields(fields)
    ensures ParseObject(Dump(fields)) == Some(Object(fields))
  {
    MembersRoundTrip(fields);
    MembersPlain(fields);
    TokensHead("{", '"', MembersText(fields));
    assert Dump(fields) == "{" + ['"'] + MembersText(fields);
    assert Tokens(Dump(fields), '"')[1..] == Tokens(MembersText(fields), '"');
  }

  // --------------------------------------------------------------------- entries

  function FdbFields(switchId: Oid, mac: Mac, bvId: Oid): seq<Field> {
    [("bvid", OidText(bvId)), ("mac", CharData.SerializeMac(mac)), ("switch_id", OidText(switchId))]
  }

  function RouteFields(switchId: Oid, vrId: Oid, dest: string): seq<Field> {
    [("dest", dest), ("switch_id", OidText(switchId)), ("vr", OidText(vrId))]
  }

  function NeighborFields(switchId: Oid, rifId: Oid, ip: string): seq<Field> {
    [("ip", ip), ("rif", OidText(rifId)), ("switch_id", OidText(switchId))]
  }

  /** A member of a parsed object; a missing one throws. */
  function Member(o: map<string, string>, name: string): Option<string> {
    if name in o then Some(o[name]) else None
  }

  function OidMember(o: map<string, string>, name: string): Option<Oid> {
    match Member(o, name) case None => None case Some(s) => ParseOid(s)
  }

  function ParseFdb(o: map<string, string>): Option<MetaKey> {
    match (OidMember(o, "switch_id"), Member(o, "mac"), OidMember(o, "bvid"))
    case (Some(sw), Some(mac), Some(bv)) => Mapped(CharData.ParseMac(mac), (a: Mac) => FdbKey(sw, a, bv))
    case _ => None
  }

  function ParseRoute(ip: IpCodec, o: map<string, string>): Option<MetaKey> {
    match (OidMember(o, "switch_id"), OidMember(o, "vr"), Member(o, "dest"))
    case (Some(sw), Some(vr), Some(dest)) => Mapped(ParsePrefix(ip, dest), (p: Prefix) => RouteKey(sw, vr, p))
    case _ => None
  }

  function ParseNeighbor(ip: IpCodec, o: map<string, string>): Option<MetaKey> {
    match (OidMember(o, "switch_id"), OidMember(o, "rif"), Member(o, "ip"))
    case (Some(sw), Some(rif), Some(address)) =>
      Mapped(ParseAddress(ip, address), (a: Ip) => NeighborKey(sw, rif, a))
    case _ => None
  }

  // ------------------------------------------------------------------------ keys

  /** The keys that can be printed: oids of object id types, and entries whose address or
      mask prints. */
  predicate KeyPrints(key: MetaKey) {
    match key
    case OidKey(t, _) => t != NULL_TYPE && t < OBJECT_TYPE_MAX && !IsEntryType(t)
    case FdbKey(_, _, _) => true
    case RouteKey(_, _, dest) => StorableData(PrefixV(dest))
    case NeighborKey(_, _, ip) => StorableIp(ip)
  }

  function BodyText(n: Names, key: MetaKey): Option<string> {
    match key
    case OidKey(t, oid) =>
      if t == NULL_TYPE || t >= OBJECT_TYPE_MAX || IsEntryType(t) then None else Some(OidText(oid))
    case FdbKey(sw, mac, bv) => Some(Dump(FdbFields(sw, mac, bv)))
    case RouteKey(sw, vr, dest) => Mapped(PrefixText(n.ip, dest), (d: string) => Dump(RouteFields(sw, vr, d)))
    case NeighborKey(sw, rif, ip) => Mapped(AddressText(n.ip, ip), (a: string) => Dump(NeighborFields(sw, rif, a)))
  }

  /** `sai_serialize_object_meta_key`; None is an exception. */
  function SerializeKey(n: Names, key: MetaKey): Option<string> {
    match BodyText(n, key)
    case None => None
    case Some(body) => Some(EnumText(n.types, key.Type()) + ":" + body)
  }

  function ParseEntry(n: Names, t: ObjectType, body: string): Option<MetaKey>
    requires t in {FDB_ENTRY, ROUTE_ENTRY, NEIGHBOR_ENTRY}
  {
    match ParseObject(body)
    case None => None
    case Some(o) =>
      if t == FDB_ENTRY then ParseFdb(o)
      else if t == ROUTE_ENTRY then ParseRoute(n.ip, o)
      else ParseNeighbor(n.ip, o)
  }

  /** The text of the type and the text after the first colon; without a colon, both are
      the whole text. */
  function SplitKey(s: string): (string, string) {
    var pos := IndexOf(s, ':');
    if pos == |s| then (s, s) else (s[..pos], s[pos + 1..])
  }

  function ParseBody(n: Names, t: int, body: string): Option<MetaKey> {
    if t <= NULL_TYPE || t >= OBJECT_TYPE_MAX then None
    else if t in {FDB_ENTRY, ROUTE_ENTRY, NEIGHBOR_ENTRY} then ParseEntry(n, t, body)
    else if IsEntryType(t) then None
    else Mapped(ParseOid(body), (oid: Oid) => OidKey(t, oid))
  }

  /** `sai_deserialize_object_meta_key` */
  function DeserializeKey(n: Names, s: string): Option<MetaKey> {
    var (name, body) := SplitKey(s);
    match ParseEnum(n.types, name) case None => None case Some(t) => ParseBody(n, t, body)
  }

  lemma OidField(oid: Oid)
    ensures PlainText(OidText(oid)) && OidText(oid) != "" && ParseOid(OidText(oid)) == Some(oid)
  {
    OidRoundTrip(oid);
    assert !IsOidChar('"') && !IsOidChar('\\');
  }

  lemma Three(fields: seq<Field>)
    requires |fields| == 3
    requires fields[0].0 != fields[1].0 && fields[0].0 != fields[2].0 && fields[1].0 != fields[2].0
    ensures forall f <- fields :: Member(Object(fields), f.0) == Some(f.1)
  {
    assert Object(fields[1..][1..]) == map[fields[2].0 := fields[2].1] + Object([]);
  }

  /** The members of a dumped object of three are found again. */
  lemma ThreeFields(a: Field, b: Field, c: Field) returns (o: map<string, string>)
    requires PlainField(a) && PlainField(b) && PlainField(c)
    requires a.0 != b.0 && a.0 != c.0 && b.0 != c.0
    ensures ParseObject(Dump([a, b, c])) == Some(o)
    ensures Member(o, a.0) == Some(a.1) && Member(o, b.0) == Some(b.1) && Member(o, c.0) == Some(c.1)
  {
    ObjectRoundTrip([a, b, c]);
    Three([a, b, c]);
    o := Object([a, b, c]);
  }

  lemma FdbBody(switchId: Oid, mac: Mac, bvId: Oid)
    ensures var o := ParseObject(Dump(FdbFields(switchId, mac, bvId)));
            o.Some? && ParseFdb(o.value) == Some(FdbKey(switchId, mac, bvId))
  {
    OidField(switchId);
    OidField(bvId);
    CharData.MacChars(mac);
    assert !CharData.IsMacChar('"') && !CharData.IsMacChar('\\');
    var o := ThreeFields(("bvid", OidText(bvId)), ("mac", CharData.SerializeMac(mac)),
                         ("switch_id", OidText(switchId)));
    CharData.MacRoundTrip(mac);
  }

  lemma PrefixField(ip: IpCodec, p: Prefix)
    requires Inverse(ip) && PrefixText(ip, p).Some?
    ensures PlainText(PrefixText(ip, p).value) && PrefixText(ip, p).value != ""
  {
    assert !IsIpChar('"') && !IsIpChar('\\') && !IsNumberChar('"') && !IsNumberChar('\\');
  }

  lemma RouteBody(ip: IpCodec, switchId: Oid, vrId: Oid, dest: Prefix)
    requires Inverse(ip) && StorableData(PrefixV(dest))
    ensures PrefixText(ip, dest).Some?
    ensures var o := ParseObject(Dump(RouteFields(switchId, vrId, PrefixText(ip, dest).value)));
            o.Some? && ParseRoute(ip, o.value) == Some(RouteKey(switchId, vrId, dest))
  {
    OidField(switchId);
    OidField(vrId);
    PrefixRoundTrip(ip, dest);
    PrefixField(ip, dest);
    var text := PrefixText(ip, dest).value;
    var o := ThreeFields(("dest", text), ("switch_id", OidText(switchId)), ("vr", OidText(vrId)));
  }

  lemma NeighborBody(ip: IpCodec, switchId: Oid, rifId: Oid, address: Ip)
    requires Inverse(ip) && StorableIp(address)
    ensures AddressText(ip, address).Some?
    ensures var o := ParseObject(Dump(NeighborFields(switchId, rifId, AddressText(ip, address).value)));
            o.Some? && ParseNeighbor(ip, o.value) == Some(NeighborKey(switchId, rifId, address))
  {
    OidField(switchId);
    OidField(rifId);
    assert !IsIpChar('"') && !IsIpChar('\\');
    var text := AddressText(ip, address).value;
    var o := ThreeFields(("ip", text), ("rif", OidText(rifId)), ("switch_id", OidText(switchId)));
  }

  lemma TypeSplits(n: Names, t: ObjectType, body: string)
    requires EnumLawful(n.types) && t < OBJECT_TYPE_MAX
    ensures SplitKey(EnumText(n.types, t) + ":" + body) == (EnumText(n.types, t), body)
    ensures ParseEnum(n.types, EnumText(n.types, t)) == Some(t)
  {
    var name := EnumText(n.types, t);
    EnumChars(n.types, t);
    EnumRoundTrip(n.types, t);
    assert !IsEnumChar(':');
    IndexOfSplit(name, ':', body);
    var s := name + ":" + body;
    assert s == name + [':'] + body && s[..|name|] == name && s[|name| + 1..] == body;
  }

  lemma BodyRoundTrip(n: Names, key: MetaKey)
    requires NamesLawful(n) && KeyPrints(key)
    ensures BodyText(n, key).Some?
    ensures ParseBody(n, key.Type(), BodyText(n, key).value) == Some(key)
  {
    match key
    case OidKey(_, oid) => OidRoundTrip(oid);
    case FdbKey(sw, mac, bv) => FdbBody(sw, mac, bv);
    case RouteKey(sw, vr, dest) => RouteBody(n.ip, sw, vr, dest);
    case NeighborKey(sw, rif, ip) => NeighborBody(n.ip, sw, rif, ip);
  }

  lemma UnprintableBody(n: Names, key: MetaKey)
    requires NamesLawful(n) && !KeyPrints(key)
    ensures BodyText(n, key).None?
  {
    if key.RouteKey? {
      PrefixRoundTrip(n.ip, key.dest);
    }
  }

  /** Printing an object key throws exactly when the key is not printable, and a printed
      key parses back to itself. */
  lemma KeyRoundTrip(n: Names, key: MetaKey)
    requires NamesLawful(n)
    ensures SerializeKey(n, key).Some? <==> KeyPrints(key)
    ensures KeyPrints(key) ==> DeserializeKey(n, SerializeKey(n, key).value) == Some(key)
  {
    if KeyPrints(key) {
      BodyRoundTrip(n, key);
      TypeSplits(n, key.Type(), BodyText(n, key).value);
    } else {
      UnprintableBody(n, key);
    }
  }

  /** No two keys print alike. */
  lemma KeyInjective(n: Names, j: MetaKey, k: MetaKey)
    requires NamesLawful(n) && KeyPrints(j) && KeyPrints(k)
    ensures SerializeKey(n, j) == SerializeKey(n, k) <==> j == k
  {
    KeyRoundTrip(n, j);
    KeyRoundTrip(n, k);
  }

  // ------------------------------------------------ which keys are of fdb entries

  const BVID := "bvid"

  predicate Contains(s: string, part: string) {
    exists i :: 0 <= i <= |s| && part <= s[i..]
  }

  lemma ContainsAt(s: string, part: string, i: nat)
    requires i + |part| <= |s| && s[i..i + |part|] == part
    ensures Contains(s, part)
  {
    assert s[i..][..|part|] == part && part <= s[i..];
  }

  /** Every v of `s` follows a quote, `before` being the character ahead of `s`. */
  predicate VQuoted(before: char, s: string) {
    forall i :: 0 <= i < |s| && s[i] == 'v' ==> Before(before, s, i) == '"'
  }

  function Before(before: char, s: string, i: nat): char
    requires i < |s|
  {
    if i == 0 then before else s[i - 1]
  }

  lemma VQuotedNoBvid(before: char, s: string)
    requires VQuoted(before, s)
    ensures !Contains(s, BVID)
  {
    forall i | 0 <= i <= |s| ensures !(BVID <= s[i..]) {
      var t := s[i..];
      assert |t| >= 4 ==> t[0] == s[i] && t[1] == s[i + 1] && Before(before, s, i + 1) == s[i];
      assert |t| >= 4 && t[1] == 'v' ==> t[0] == '"';
    }
  }

  lemma VQuotedJoin(before: char, a: string, b: string)
    requires VQuoted(before, a) && VQuoted(if a == "" then before else a[|a| - 1], b)
    ensures VQuoted(before, a + b)
  {
    var s := a + b;
    forall i | 0 <= i < |s| && s[i] == 'v'
      ensures Before(before, s, i) == '"'
    {
      if i < |a| {
        assert a[i] == 'v' && Before(before, a, i) == Before(before, s, i);
      } else {
        var last := if a == "" then before else a[|a| - 1];
        assert b[i - |a|] == 'v' && Before(last, b, i - |a|) == Before(before, s, i);
      }
    }
  }

  lemma {:induction false} MembersVQuoted(fields: seq<Field>)
    requires fields != [] && forall f <- fields :: VQuoted('"', f.0) && 'v' !in f.1
    ensures VQuoted('"', MembersText(fields))
  {
    assert fields[0] in fields;
    var head := fields[0].0 + "\":\"" + fields[0].1 + "\"";
    VQuotedJoin('"', fields[0].0, "\":\"");
    VQuotedJoin('"', fields[0].0 + "\":\"", fields[0].1);
    VQuotedJoin('"', fields[0].0 + "\":\"" + fields[0].1, "\"");
    if |fields| == 1 {
      VQuotedJoin('"', head, "}");
    } else {
      MembersVQuoted(fields[1..]);
      VQuotedJoin('"', ",\"", MembersText(fields[1..]));
      VQuotedJoin('"', head, ",\"" + MembersText(fields[1..]));
    }
  }

  lemma EntryNoBvid(name: string, fields: seq<Field>)
    requires fields != [] && forall f <- fields :: VQuoted('"', f.0) && 'v' !in f.1
    requires 'v' !in name
    ensures !Contains(name + ":" + Dump(fields), BVID)
  {
    MembersVQuoted(fields);
    VQuotedJoin(':', "{\"", MembersText(fields));
    VQuotedJoin('"', name + ":", Dump(fields));
    VQuotedNoBvid('"', name + ":" + Dump(fields));
  }

  lemma OidNoV(oid: Oid)
    ensures 'v' !in OidText(oid)
  {
    OidRoundTrip(oid);
    assert !IsOidChar('v');
  }

  lemma NameNoV(n: Names, t: ObjectType)
    requires EnumLawful(n.types)
    ensures 'v' !in EnumText(n.types, t)
  {
    EnumChars(n.types, t);
    assert !IsEnumChar('v');
  }

  lemma FdbHasBvid(name: string, switchId: Oid, mac: Mac, bvId: Oid)
    ensures Contains(name + ":" + Dump(FdbFields(switchId, mac, bvId)), BVID)
  {
    var s := name + ":" + Dump(FdbFields(switchId, mac, bvId));
    assert s[|name| + 3..|name| + 7] == BVID;
    ContainsAt(s, BVID, |name| + 3);
  }

  /** "bvid" occurs in the text of a key exactly when it is the key of an fdb entry, so the
      scan of a consolidated flush looks at fdb entries only. */
  lemma BvidOnlyInFdbKeys(n: Names, key: MetaKey)
    requires NamesLawful(n) && KeyPrints(key)
    ensures SerializeKey(n, key).Some?
    ensures Contains(SerializeKey(n, key).value, BVID) <==> key.FdbKey?
  {
    KeyRoundTrip(n, key);
    var name := EnumText(n.types, key.Type());
    NameNoV(n, key.Type());
    match key
    case OidKey(_, oid) =>
      OidNoV(oid);
      VQuotedNoBvid('"', name + ":" + OidText(oid));
    case FdbKey(sw, mac, bv) => FdbHasBvid(name, sw, mac, bv);
    case RouteKey(sw, vr, dest) => RouteNoBvid(n.ip, name, sw, vr, dest);
    case NeighborKey(sw, rif, ip) => NeighborNoBvid(n.ip, name, sw, rif, ip);
  }

  lemma RouteNoBvid(ip: IpCodec, name: string, switchId: Oid, vrId: Oid, dest: Prefix)
    requires Inverse(ip) && PrefixText(ip, dest).Some? && 'v' !in name
    ensures !Contains(name + ":" + Dump(RouteFields(switchId, vrId, PrefixText(ip, dest).value)), BVID)
  {
    var d := PrefixText(ip, dest).value;
    assert !IsIpChar('v') && !IsNumberChar('v') && 'v' !in d;
    OidNoV(switchId);
    OidNoV(vrId);
    EntryNoBvid(name, RouteFields(switchId, vrId, d));
  }

  lemma NeighborNoBvid(ip: IpCodec, name: string, switchId: Oid, rifId: Oid, address: Ip)
    requires Inverse(ip) && AddressText(ip, address).Some? && 'v' !in name
    ensures !Contains(name + ":" + Dump(NeighborFields(switchId, rifId, AddressText(ip, address).value)), BVID)
  {
    var a := AddressText(ip, address).value;
    assert !IsIpChar('v') && 'v' !in a;
    OidNoV(switchId);
    OidNoV(rifId);
    EntryNoBvid(name, NeighborFields(switchId, rifId, a));
  }
}
