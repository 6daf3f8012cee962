/** Attribute lists as field and value pairs, the form in which calls travel through redis
    (saiattributelist.cpp). */
module AttrList {
  import opened Sai
  import opened Stored
  import opened MetaState
  import opened ValueText

  type Pair = (string, string)

  const NULL_FIELD := "NULL"

  /** The metadata with its texts: the lookup of an attribute id by name, the address codec
      and the enumeration of ACL action types. */
  datatype Env = Env(m: Meta, idOf: map<string, AttrId>, ip: IpCodec, actions: Option<EnumMeta>) {
    function For(md: AttrMeta): Context { Context(ip, md.enums, actions) }
  }

  /** Names of attributes are unique and no name is the placeholder's. */
  ghost predicate EnvLawful(x: Env) {
    && Inverse(x.ip) && EnumLawful(x.actions)
    && (forall t: ObjectType, id: AttrId :: x.m.Has(t, id) ==>
          var md := x.m.Of(t, id);
          && md.id == id && EnumLawful(md.enums)
          && md.name in x.idOf && x.idOf[md.name] == id && md.name != NULL_FIELD)
  }

  predicate TypedOne(m: Meta, t: ObjectType, a: Attribute) {
    m.Has(t, a.id) ==> WellTyped(m.Of(t, a.id).valueType, a.value)
  }

  predicate TypedAll(m: Meta, t: ObjectType, attrs: seq<Attribute>) {
    forall i: nat :: i < |attrs| ==> TypedOne(m, t, attrs[i])
  }

  /** The pair of one attribute, or an exception: unknown attribute, or a value that does not
      print. */
  function PairOf(x: Env, t: ObjectType, a: Attribute): Option<Pair>
    requires TypedOne(x.m, t, a)
  {
    if !x.m.Has(t, a.id) then None
    else
      var md := x.m.Of(t, a.id);
      match Serialize(x.For(md), md.valueType, a.value)
      case None => None
      case Some(text) => Some((md.name, text))
  }

  /** What one pair adds: nothing for a placeholder, or an attribute; an exception on an
      unknown name, an attribute of another type, or a value that does not parse. */
  function AttrOf(x: Env, t: ObjectType, p: Pair): Option<seq<Attribute>> {
    if p.0 == NULL_FIELD then Some([])
    else if p.0 !in x.idOf || !x.m.Has(t, x.idOf[p.0]) then None
    else
      var md := x.m.Of(t, x.idOf[p.0]);
      match Deserialize(x.For(md), md.valueType, p.1)
      case None => None
      case Some(v) => Some([Attribute(x.idOf[p.0], v)])
  }

  function PairsUpTo(x: Env, t: ObjectType, attrs: seq<Attribute>, n: nat): Option<seq<Pair>>
    requires TypedAll(x.m, t, attrs) && n <= |attrs|
  {
    if n == 0 then Some([])
    else
      match (PairsUpTo(x, t, attrs, n - 1), PairOf(x, t, attrs[n - 1]))
      case (Some(pairs), Some(p)) => Some(pairs + [p])
      case _ => None
  }

  function AttrsUpTo(x: Env, t: ObjectType, values: seq<Pair>, n: nat): Option<seq<Attribute>>
    requires n <= |values|
  {
    if n == 0 then Some([])
    else
      match (AttrsUpTo(x, t, values, n - 1), AttrOf(x, t, values[n - 1]))
      case (Some(attrs), Some(more)) => Some(attrs + more)
      case _ => None
  }

  /** `serialize_attr_list` with countOnly false; None is an exception. */
  method SerializeAttrList(x: Env, t: ObjectType, attrs: seq<Attribute>) returns (r: Option<seq<Pair>>)
    requires TypedAll(x.m, t, attrs)
    ensures r == PairsUpTo(x, t, attrs, |attrs|)
  {
    var entry: seq<Pair>, i := [], 0;
    while i < |attrs|
      invariant 0 <= i <= |attrs| && PairsUpTo(x, t, attrs, i) == Some(entry)
    {
      var p := PairOf(x, t, attrs[i]);
      if p.None? {
        PairsStop(x, t, attrs, i + 1);
        return None;
      }
      entry := entry + [p.value];
      i := i + 1;
    }
    r := Some(entry);
  }

  class SaiAttributeList {
    var attrList: seq<Attribute>
    var valueTypes: seq<ValueType>

    constructor ()
      ensures attrList == [] && valueTypes == []
    {
      attrList, valueTypes := [], [];
    }

    /** Each attribute comes with the value type of its metadata. */
    ghost predicate TypesAgree(m: Meta, t: ObjectType)
      reads this
    {
      |valueTypes| == |attrList| && forall i :: 0 <= i < |attrList| ==>
        m.Has(t, attrList[i].id) && valueTypes[i] == m.Of(t, attrList[i].id).valueType
    }

    /** The constructor of `SaiAttributeList` with countOnly false, on a new list; false is an
        exception. */
    method Fill(x: Env, t: ObjectType, values: seq<Pair>) returns (ok: bool)
      requires attrList == [] && valueTypes == []
      modifies this
      ensures ok == AttrsUpTo(x, t, values, |values|).Some?
      ensures ok ==> attrList == AttrsUpTo(x, t, values, |values|).value && TypesAgree(x.m, t)
    {
      var i := 0;
      while i < |values|
        invariant 0 <= i <= |values| && AttrsUpTo(x, t, values, i) == Some(attrList)
        invariant TypesAgree(x.m, t)
      {
        ok := Append(x, t, values[i]);
        if !ok {
          AttrsStop(x, t, values, i + 1);
          return;
        }
        i := i + 1;
      }
      ok := true;
    }

    method Append(x: Env, t: ObjectType, p: Pair) returns (ok: bool)
      requires TypesAgree(x.m, t)
      modifies this
      ensures ok == AttrOf(x, t, p).Some?
      ensures ok ==> attrList == old(attrList) + AttrOf(x, t, p).value && TypesAgree(x.m, t)
    {
      if p.0 == NULL_FIELD {
        assert attrList == attrList + [];
        return true;
      }
      if p.0 !in x.idOf || !x.m.Has(t, x.idOf[p.0]) {
        return false;
      }
      var md := x.m.Of(t, x.idOf[p.0]);
      var v := Deserialize(x.For(md), md.valueType, p.1);
      if v.None? {
        return false;
      }
      attrList := attrList + [Attribute(x.idOf[p.0], v.value)];
      valueTypes := valueTypes + [md.valueType];
      ok := true;
    }
  }

  lemma {:induction false} PairsStop(x: Env, t: ObjectType, attrs: seq<Attribute>, n: nat)
    requires TypedAll(x.m, t, attrs) && n <= |attrs| && PairsUpTo(x, t, attrs, n).None?
    ensures PairsUpTo(x, t, attrs, |attrs|).None?
    decreases |attrs| - n
  {
    if n < |attrs| {
      PairsStop(x, t, attrs, n + 1);
    }
  }

  lemma {:induction false} AttrsStop(x: Env, t: ObjectType, values: seq<Pair>, n: nat)
    requires n <= |values| && AttrsUpTo(x, t, values, n).None?
    ensures AttrsUpTo(x, t, values, |values|).None?
    decreases |values| - n
  {
    if n < |values| {
      AttrsStop(x, t, values, n + 1);
    }
  }

  /** The pairs written: the name of each attribute and its printed value, in order; an unknown
      attribute and a value that does not print throw. */
  lemma {:induction false} PairsWritten(x: Env, t: ObjectType, attrs: seq<Attribute>, n: nat)
    requires TypedAll(x.m, t, attrs) && n <= |attrs|
    ensures PairsUpTo(x, t, attrs, n).Some? <==> forall i: nat :: i < n ==>
              && TypedOne(x.m, t, attrs[i]) && x.m.Has(t, attrs[i].id)
              && Serialize(x.For(x.m.Of(t, attrs[i].id)), x.m.Of(t, attrs[i].id).valueType, attrs[i].value).Some?
    ensures PairsUpTo(x, t, attrs, n).Some? ==>
              var pairs := PairsUpTo(x, t, attrs, n).value;
              |pairs| == n && forall i: nat :: i < n ==>
                && TypedOne(x.m, t, attrs[i]) && x.m.Has(t, attrs[i].id)
                && pairs[i].0 == x.m.Of(t, attrs[i].id).name
                && Serialize(x.For(x.m.Of(t, attrs[i].id)), x.m.Of(t, attrs[i].id).valueType, attrs[i].value)
                     == Some(pairs[i].1)
  {
    if n > 0 {
      PairsWritten(x, t, attrs, n - 1);
      assert TypedOne(x.m, t, attrs[n - 1]);
    }
  }

  // ---------------------------------------------------------------- round trip

  /** An attribute of a known id whose type has a parser */
  ghost predicate Travels(x: Env, t: ObjectType, a: Attribute) {
    TypedOne(x.m, t, a) && x.m.Has(t, a.id) && Parsed(x.m.Of(t, a.id).valueType)
  }

  function CanonAttr(a: Attribute): Attribute { Attribute(a.id, Canon(a.value)) }

  function CanonUpTo(attrs: seq<Attribute>, n: nat): seq<Attribute>
    requires n <= |attrs|
  {
    if n == 0 then [] else CanonUpTo(attrs, n - 1) + [CanonAttr(attrs[n - 1])]
  }

  predicate PrintsUpTo(attrs: seq<Attribute>, n: nat)
    requires n <= |attrs|
  {
    n == 0 || (PrintsUpTo(attrs, n - 1) && Storable(attrs[n - 1].value))
  }

  lemma PairRoundTrip(x: Env, t: ObjectType, a: Attribute)
    requires EnvLawful(x) && Travels(x, t, a)
    ensures PairOf(x, t, a).Some? <==> Storable(a.value)
    ensures Storable(a.value) ==> AttrOf(x, t, PairOf(x, t, a).value) == Some([CanonAttr(a)])
  {
    var md := x.m.Of(t, a.id);
    ValueRoundTrip(x.For(md), md.valueType, a.value);
  }

  /** Writing a list of attributes throws exactly when some value does not print, and reading
      back what was written gives the canonical attributes, in order. */
  lemma {:induction false} AttrListRoundTrip(x: Env, t: ObjectType, attrs: seq<Attribute>, n: nat)
    requires EnvLawful(x) && TypedAll(x.m, t, attrs) && n <= |attrs|
    requires forall i: nat :: i < |attrs| ==> Travels(x, t, attrs[i])
    ensures PairsUpTo(x, t, attrs, n).Some? <==> PrintsUpTo(attrs, n)
    ensures PrintsUpTo(attrs, n) ==> |PairsUpTo(x, t, attrs, n).value| == n
    ensures PrintsUpTo(attrs, n) ==>
              AttrsUpTo(x, t, PairsUpTo(x, t, attrs, n).value, n) == Some(CanonUpTo(attrs, n))
  {
    if n > 0 {
      AttrListRoundTrip(x, t, attrs, n - 1);
      assert Travels(x, t, attrs[n - 1]);
      PairRoundTrip(x, t, attrs[n - 1]);
      if PrintsUpTo(attrs, n) {
        OneMore(x, t, PairsUpTo(x, t, attrs, n - 1).value, PairOf(x, t, attrs[n - 1]).value);
      }
    }
  }

  function Joined(a: Option<seq<Attribute>>, b: Option<seq<Attribute>>): Option<seq<Attribute>> {
    match (a, b)
    case (Some(p), Some(q)) => Some(p + q)
    case _ => None
  }

  lemma OneMore(x: Env, t: ObjectType, values: seq<Pair>, p: Pair)
    ensures AttrsUpTo(x, t, values + [p], |values| + 1)
         == Joined(AttrsUpTo(x, t, values, |values|), AttrOf(x, t, p))
  {
    PrefixAgrees(x, t, values + [p], values, |values|);
  }

  /** Placeholders add nothing, wherever they stand. */
  lemma {:induction false} PlaceholdersSkipped(x: Env, t: ObjectType, values: seq<Pair>, text: string, at: nat, n: nat)
    requires at <= n <= |values|
    ensures var padded := values[..at] + [(NULL_FIELD, text)] + values[at..];
            AttrsUpTo(x, t, padded, n + 1) == AttrsUpTo(x, t, values, n)
  {
    var padded := values[..at] + [(NULL_FIELD, text)] + values[at..];
    if n == at {
      assert padded == values[..at] + ([(NULL_FIELD, text)] + values[at..]);
      PrefixAgrees(x, t, padded, values, at);
      if AttrsUpTo(x, t, values, at).Some? {
        assert AttrsUpTo(x, t, values, at).value + [] == AttrsUpTo(x, t, values, at).value;
      }
    } else {
      PlaceholdersSkipped(x, t, values, text, at, n - 1);
      assert padded[n] == values[n - 1];
    }
  }

  lemma {:induction false} PrefixAgrees(x: Env, t: ObjectType, a: seq<Pair>, b: seq<Pair>, n: nat)
    requires n <= |a| && n <= |b| && forall i :: 0 <= i < n ==> a[i] == b[i]
    ensures AttrsUpTo(x, t, a, n) == AttrsUpTo(x, t, b, n)
  {
    if n > 0 {
      PrefixAgrees(x, t, a, b, n - 1);
    }
  }
}
