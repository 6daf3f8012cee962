/** What the validators of the metadata database accept, said of their inputs alone: which
    object ids, values, attribute lists and keys, and which refusal each fault gets. The
    conditions here are written out from the shape of the values and the tables, without
    the functions the validators are proved against. */
module MetaRules {
  import opened Sai
  import opened Stored
  import opened MetaState
  import opened RefBags
  import opened MetaInvariant
  import opened MetaRuns
  import CharData
  import IpMask

  // ------------------------------------------------------------- object ids

  /** The data is this oid, or a list with it. */
  predicate Mentions(d: Data, o: Oid) {
    match d
    case OidV(oid) => o == oid
    case OidListV(Items(items)) => o in items
    case _ => false
  }

  lemma MentionsRule(d: Data, o: Oid)
    ensures o in DataRefs(d) <==> Mentions(d, o)
  {
  }

  /** Null where that is allowed, or a counted oid of an allowed type on a counted switch. */
  predicate OidAllowed(m: Meta, refs: References, md: AttrMeta, sw: Oid, o: Oid) {
    if o == NULL_OID then md.allowNull
    else m.typeOf(o) in md.allowed && m.typeOf(o) != NULL_TYPE && o in refs && sw in refs && m.switchOf(o) == sw
  }

  /** The nearest element before place `j` that is not null has the type of that at `j`. */
  ghost predicate FollowsType(m: Meta, items: seq<Oid>, j: nat)
    requires j < |items|
  {
    exists i :: 0 <= i < j && items[i] != NULL_OID && m.typeOf(items[i]) == m.typeOf(items[j])
                && forall l :: i < l < j ==> items[l] == NULL_OID
  }

  /** An acceptable object list. The types of the first two elements are not compared. */
  ghost predicate OidsAllowed(m: Meta, refs: References, md: AttrMeta, sw: Oid, l: List<Oid>) {
    match l
    case Null(count) => count == 0
    case Items(items) =>
      && |items| <= 0x1000
      && (forall o <- items :: OidAllowed(m, refs, md, sw, o))
      && (forall i, j :: 0 <= i < j < |items| && items[i] == items[j] ==> items[j] == NULL_OID)
      && (forall j :: 2 <= j < |items| && items[j] != NULL_OID ==> FollowsType(m, items, j))
  }

  lemma {:induction false} LastTypeRule(m: Meta, items: seq<Oid>, j: nat)
    requires j < |items| && m.typeOf(items[j]) != NULL_TYPE
    ensures LastType(m, items[..j]) == m.typeOf(items[j]) <==> FollowsType(m, items, j)
  {
    LastTypeAt(m, items, j, m.typeOf(items[j]));
  }

  lemma {:induction false} LastTypeAt(m: Meta, items: seq<Oid>, n: nat, t: ObjectType)
    requires n <= |items| && t != NULL_TYPE
    ensures LastType(m, items[..n]) == t <==>
              exists i :: 0 <= i < n && items[i] != NULL_OID && m.typeOf(items[i]) == t
                          && forall l :: i < l < n ==> items[l] == NULL_OID
  {
    if n > 0 {
      assert items[..n][..n - 1] == items[..n - 1];
      LastTypeAt(m, items, n - 1, t);
    }
  }

  lemma ItemRule(m: Meta, refs: References, md: AttrMeta, sw: Oid, items: seq<Oid>, j: nat)
    requires j < |items|
    ensures ItemOk(m, refs, md, sw, items, j) <==>
              && OidAllowed(m, refs, md, sw, items[j])
              && (forall i :: 0 <= i < j && items[i] == items[j] ==> items[j] == NULL_OID)
              && (2 <= j && items[j] != NULL_OID ==> FollowsType(m, items, j))
  {
    if items[j] != NULL_OID {
      assert items[j] in items[..j] <==> exists i :: 0 <= i < j && items[i] == items[j];
      if m.typeOf(items[j]) != NULL_TYPE {
        LastTypeRule(m, items, j);
      }
    }
  }

  /** Object lists: accepted exactly when acceptable, and otherwise an invalid parameter. */
  lemma OidListRule(m: Meta, refs: References, md: AttrMeta, sw: Oid, l: List<Oid>)
    ensures OidListStatus(m, refs, md, sw, l)
         == if OidsAllowed(m, refs, md, sw, l) then Success else InvalidParameter
  {
    if l.Items? {
      forall j: nat | j < |l.items|
        ensures ItemOk(m, refs, md, sw, l.items, j) <==>
                  && OidAllowed(m, refs, md, sw, l.items[j])
                  && (forall i :: 0 <= i < j && l.items[i] == l.items[j] ==> l.items[j] == NULL_OID)
                  && (2 <= j && l.items[j] != NULL_OID ==> FollowsType(m, l.items, j))
      {
        ItemRule(m, refs, md, sw, l.items, j);
      }
      assert (forall o <- l.items :: OidAllowed(m, refs, md, sw, o))
        <==> forall j: nat :: j < |l.items| ==> OidAllowed(m, refs, md, sw, l.items[j]);
    }
  }

  /** A single oid is a list of one. */
  lemma OidRule(m: Meta, refs: References, md: AttrMeta, sw: Oid, o: Oid)
    ensures OidListStatus(m, refs, md, sw, Items([o]))
         == if OidAllowed(m, refs, md, sw, o) then Success else InvalidParameter
  {
    OidListRule(m, refs, md, sw, Items([o]));
    assert o in [o];
  }

  // ------------------------------------------------------------------ values

  /** Up to 4096 elements and at least one, or a null pointer with count zero. */
  predicate ListAllowed<T>(l: List<T>) {
    match l
    case Null(count) => count == 0
    case Items(items) => 0 < |items| <= 0x1000
  }

  /** A host interface name: one to fifteen printable characters and a NUL after them. */
  ghost predicate NameAllowed(text: Text32) {
    exists n :: 0 < n < 16 && text[n] == 0 && forall i :: 0 <= i < n ==> 0x20 <= text[i] <= 0x7e
  }

  lemma {:induction false} StringEnds(data: seq<Byte>, n: nat)
    requires n < |data| && data[n] == 0 && forall i :: 0 <= i < n ==> data[i] != 0
    ensures |CharData.CString(data)| == n
  {
    if n > 0 {
      StringEnds(data[1..], n - 1);
    }
  }

  lemma NameRule(text: Text32)
    ensures NameOk(text) <==> NameAllowed(text)
  {
    var head := text[..16];
    var name := CharData.CString(head);
    assert forall i :: 0 <= i < |name| ==> name[i] == text[i];
    if NameOk(text) {
      assert text[|name|] == 0;
      forall i | 0 <= i < |name| ensures 0x20 <= text[i] <= 0x7e {
        assert name[i] in name && Printable(name[i]);
      }
    }
    if NameAllowed(text) {
      var n :| 0 < n < 16 && text[n] == 0 && forall i :: 0 <= i < n ==> 0x20 <= text[i] <= 0x7e;
      StringEnds(head, n);
      forall c | c in name ensures Printable(c) {
        var i :| 0 <= i < |name| && name[i] == c;
      }
    }
  }

  /** The types whose values a validator cannot handle; it throws on them. */
  predicate Unhandled(vt: ValueType, creating: bool) {
    match vt
    case PlainT(TextT) => !creating
    case PlainT(CapabilityT) => creating
    case PlainT(VlanListT) => true
    case PlainT(NumberListT(k)) => k in {U64, S64}
    case PlainT(RangeT(k)) => k !in {U32, S32}
    case PlainT(_) => false
    case _ =>
      vt.t in {NumberT(U64), NumberT(S64)} || !(vt.t.NumberT? || vt.t in {BoolT, MacT, Ip4T, Ip6T, OidT, OidListT})
  }

  /** What is asked of a value of a type that is handled. */
  ghost predicate DataAllowed(m: Meta, refs: References, t: ObjectType, md: AttrMeta, sw: Oid, v: Value,
                              creating: bool)
  {
    match v.data
    case OidV(o) =>
      || !Enabled(v) || OidAllowed(m, refs, md, sw, o)
      || (v.Plain? && !creating && t == SCHEDULER_GROUP && md.id == SCHEDULER_GROUP_PROFILE && o == NULL_OID)
    case OidListV(l) => !Enabled(v) || OidsAllowed(m, refs, md, sw, l)
    case TextV(text) => NameAllowed(text)
    case AddressV(ip) => !ip.OtherFamily?
    case PrefixV(prefix) => !prefix.OtherPrefix?
    case NumberListV(l) => ListAllowed(l)
    case AddressListV(l) => ListAllowed(l)
    case RangeV(lo, hi) => lo <= hi
    case CapabilityV(_, l) => ListAllowed(l)
    case _ => true
  }

  ghost predicate ValueAllowed(m: Meta, refs: References, t: ObjectType, md: AttrMeta, sw: Oid, v: Value,
                               creating: bool)
  {
    && DataAllowed(m, refs, t, md, sw, v, creating)
    && (md.isEnum ==> v.data.NumberV? && md.enums.Some? && v.data.n in md.enums.value.values)
  }

  lemma PlainOidRule(m: Meta, refs: References, t: ObjectType, md: AttrMeta, sw: Oid, d: Data, creating: bool)
    requires WellTyped(md.valueType, Plain(d)) && (d.OidV? || d.OidListV?)
    ensures PlainStatus(m, refs, t, md, sw, d, creating)
         == if Unhandled(md.valueType, creating) then Fatal
            else if DataAllowed(m, refs, t, md, sw, Plain(d), creating) then Success else InvalidParameter
  {
    match d
    case OidV(oid) => OidRule(m, refs, md, sw, oid);
    case OidListV(oids) => OidListRule(m, refs, md, sw, oids);
  }

  lemma PlainRule(m: Meta, refs: References, t: ObjectType, md: AttrMeta, sw: Oid, d: Data, creating: bool)
    requires WellTyped(md.valueType, Plain(d))
    ensures PlainStatus(m, refs, t, md, sw, d, creating)
         == if Unhandled(md.valueType, creating) then Fatal
            else if DataAllowed(m, refs, t, md, sw, Plain(d), creating) then Success else InvalidParameter
  {
    if d.OidV? || d.OidListV? {
      PlainOidRule(m, refs, t, md, sw, d, creating);
    } else if d.TextV? {
      NameRule(d.text);
    }
  }

  lemma AclRule(m: Meta, refs: References, t: ObjectType, md: AttrMeta, sw: Oid, v: Value, creating: bool)
    requires WellTyped(md.valueType, v) && !v.Plain?
    ensures AclStatus(m, refs, md, sw, v.enable, v.data)
         == if Unhandled(md.valueType, creating) then Fatal
            else if DataAllowed(m, refs, t, md, sw, v, creating) then Success else InvalidParameter
  {
    match v.data
    case OidV(oid) => OidRule(m, refs, md, sw, oid);
    case OidListV(oids) => OidListRule(m, refs, md, sw, oids);
    case _ =>
  }

  /** Values: a type that is not handled throws, an acceptable value is accepted, and every
      other is an invalid parameter. */
  lemma ValueRule(m: Meta, refs: References, t: ObjectType, md: AttrMeta, sw: Oid, v: Value, creating: bool)
    requires WellTyped(md.valueType, v)
    ensures ValueStatus(m, refs, t, md, sw, v, creating)
         == if Unhandled(md.valueType, creating) then Fatal
            else if ValueAllowed(m, refs, t, md, sw, v, creating) then Success else InvalidParameter
  {
    if v.Plain? {
      PlainRule(m, refs, t, md, sw, v.data, creating);
    } else {
      AclRule(m, refs, t, md, sw, v, creating);
    }
  }

  // ---------------------------------------------------------- attribute lists

  ghost predicate AttrAllowed(m: Meta, refs: References, t: ObjectType, sw: Oid, attrs: seq<Attribute>, i: nat)
    requires i < |attrs|
  {
    && m.Has(t, attrs[i].id) && !m.Of(t, attrs[i].id).readOnly
    && !Unhandled(m.Of(t, attrs[i].id).valueType, true)
    && ValueAllowed(m, refs, t, m.Of(t, attrs[i].id), sw, attrs[i].value, true)
    && forall j :: 0 <= j < i ==> attrs[j].id != attrs[i].id
  }

  /** The refusal of one attribute of a create. */
  ghost function AttrRefusal(m: Meta, t: ObjectType, attrs: seq<Attribute>, i: nat): Status
    requires i < |attrs|
  {
    if !m.Has(t, attrs[i].id) then Failure
    else if (exists j :: 0 <= j < i && attrs[j].id == attrs[i].id) || m.Of(t, attrs[i].id).readOnly
    then InvalidParameter
    else if Unhandled(m.Of(t, attrs[i].id).valueType, true) then Fatal
    else InvalidParameter
  }

  lemma AttrRule(m: Meta, refs: References, t: ObjectType, sw: Oid, attrs: seq<Attribute>, i: nat)
    requires i < |attrs| && Typed(m, t, attrs)
    ensures AttrCreateStatus(m, refs, t, sw, attrs, i)
         == if AttrAllowed(m, refs, t, sw, attrs, i) then Success else AttrRefusal(m, t, attrs, i)
  {
    assert attrs[i] in attrs;
    if m.Has(t, attrs[i].id) {
      ValueRule(m, refs, t, m.Of(t, attrs[i].id), sw, attrs[i].value, true);
    }
  }

  /** The first attribute that is not acceptable is at place `n`, if any. */
  ghost predicate FirstRefused(m: Meta, refs: References, t: ObjectType, sw: Oid, attrs: seq<Attribute>, n: nat) {
    && n <= |attrs|
    && (forall i :: 0 <= i < n ==> AttrAllowed(m, refs, t, sw, attrs, i))
    && (n < |attrs| ==> !AttrAllowed(m, refs, t, sw, attrs, n))
  }

  /** Attribute lists of create: the first attribute that is not acceptable decides. */
  lemma {:induction false} AttrsRule(m: Meta, refs: References, t: ObjectType, sw: Oid, attrs: seq<Attribute>,
                                     n: nat, i: nat)
    requires Typed(m, t, attrs) && i <= n && FirstRefused(m, refs, t, sw, attrs, n)
    ensures AttrsStatus(m, refs, t, sw, attrs, i)
         == if n == |attrs| then Success else AttrRefusal(m, t, attrs, n)
    decreases |attrs| - i
  {
    if i < |attrs| {
      AttrRule(m, refs, t, sw, attrs, i);
      if i < n {
        AttrsRule(m, refs, t, sw, attrs, n, i + 1);
      }
    }
  }

  // ----------------------------------------------------- mandatory attributes

  predicate Passed(attrs: seq<Attribute>, id: AttrId) { exists i :: 0 <= i < |attrs| && attrs[i].id == id }

  /** The list gives the attribute this value, with its first mention. */
  ghost predicate Gives(attrs: seq<Attribute>, id: AttrId, v: Value) {
    exists i :: 0 <= i < |attrs| && attrs[i] == Attribute(id, v) && forall j :: 0 <= j < i ==> attrs[j].id != id
  }

  lemma {:induction false} FindRule(attrs: seq<Attribute>, id: AttrId, v: Value)
    ensures Find(attrs, id) == Some(v) <==> Gives(attrs, id, v)
    ensures Find(attrs, id) == None <==> !Passed(attrs, id)
  {
    if attrs != [] {
      FindRule(attrs[1..], id, v);
      GivesRest(attrs, id, v);
    }
  }

  lemma GivesRest(attrs: seq<Attribute>, id: AttrId, v: Value)
    requires attrs != []
    ensures Gives(attrs, id, v) <==>
              if attrs[0].id == id then attrs[0].value == v else Gives(attrs[1..], id, v)
    ensures Passed(attrs, id) <==> attrs[0].id == id || Passed(attrs[1..], id)
  {
    if Gives(attrs[1..], id, v) && attrs[0].id != id {
      var i :| 0 <= i < |attrs[1..]| && attrs[1..][i] == Attribute(id, v)
               && forall j :: 0 <= j < i ==> attrs[1..][j].id != id;
      assert attrs[i + 1] == Attribute(id, v);
      forall j | 0 <= j < i + 1 ensures attrs[j].id != id {
        if j > 0 {
          assert attrs[1..][j - 1] == attrs[j];
        }
      }
    }
    if Gives(attrs, id, v) && attrs[0].id != id {
      var i :| 0 <= i < |attrs| && attrs[i] == Attribute(id, v) && forall j :: 0 <= j < i ==> attrs[j].id != id;
      assert attrs[1..][i - 1] == Attribute(id, v);
      assert forall j :: 0 <= j < i - 1 ==> attrs[1..][j].id == attrs[j + 1].id;
    }
    if Passed(attrs[1..], id) {
      var i :| 0 <= i < |attrs[1..]| && attrs[1..][i].id == id;
      assert attrs[i + 1].id == id;
    }
    if Passed(attrs, id) && attrs[0].id != id {
      var i :| 0 <= i < |attrs| && attrs[i].id == id;
      assert attrs[1..][i - 1].id == id;
    }
  }

  lemma PresentRule(attrs: seq<Attribute>, id: AttrId)
    ensures MetaState.Present(attrs, id) <==> Passed(attrs, id)
  {
    if Passed(attrs, id) {
      var i :| 0 <= i < |attrs| && attrs[i].id == id;
      assert attrs[i] in attrs;
    }
  }

  /** The threshold mode a buffer pool was created with or set to, or the default. */
  predicate PoolMode(m: Meta, store: Store, pool: Oid, mode: int) {
    var k := OidKey(BUFFER_POOL, pool);
    if k in store && BUFFER_POOL_THRESHOLD_MODE in store[k] then
      store[k][BUFFER_POOL_THRESHOLD_MODE] == Plain(NumberV(mode))
    else
      m.Has(BUFFER_POOL, BUFFER_POOL_THRESHOLD_MODE)
      && m.Of(BUFFER_POOL, BUFFER_POOL_THRESHOLD_MODE).default == Some(Plain(NumberV(mode)))
  }

  lemma PoolModeRule(m: Meta, db: Db, pool: Oid, mode: int)
    requires Lawful(m) && AttrsOk(m, db)
    ensures PoolMode(m, db.store, pool, mode) <==> ThresholdMode(m, db.store, pool) == mode
  {
    var k := OidKey(BUFFER_POOL, pool);
    if k in db.store && BUFFER_POOL_THRESHOLD_MODE in db.store[k] {
      assert ObjectOk(m, k.objectType, db.store[k]);
      assert StoredOk(m, BUFFER_POOL, BUFFER_POOL_THRESHOLD_MODE, db.store[k][BUFFER_POOL_THRESHOLD_MODE]);
    }
  }

  /** A missing threshold of a buffer profile is let pass when the profile has no pool or
      its pool is in the other mode, a missing range type of an ACL table always. */
  ghost predicate LetPass(m: Meta, store: Store, t: ObjectType, attrs: seq<Attribute>, id: AttrId) {
    if t == BUFFER_PROFILE && id == BUFFER_PROFILE_DYNAMIC_TH then
      exists v :: Gives(attrs, BUFFER_PROFILE_POOL, v) && v.data.OidV?
                  && (v.data.oid == NULL_OID || !PoolMode(m, store, v.data.oid, 1))
    else if t == BUFFER_PROFILE && id == BUFFER_PROFILE_STATIC_TH then
      exists v :: Gives(attrs, BUFFER_PROFILE_POOL, v) && v.data.OidV?
                  && (v.data.oid == NULL_OID || !PoolMode(m, store, v.data.oid, 0))
    else t == ACL_TABLE && id == ACL_TABLE_RANGE_TYPE
  }

  lemma ExcusedRule(m: Meta, db: Db, t: ObjectType, attrs: seq<Attribute>, id: AttrId)
    requires Lawful(m) && AttrsOk(m, db)
    ensures Excused(m, db.store, t, id, attrs) <==> LetPass(m, db.store, t, attrs, id)
  {
    var pool := Find(attrs, BUFFER_PROFILE_POOL);
    if pool.Some? {
      FindRule(attrs, BUFFER_PROFILE_POOL, pool.value);
      forall v ensures Gives(attrs, BUFFER_PROFILE_POOL, v) <==> v == pool.value {
        FindRule(attrs, BUFFER_PROFILE_POOL, v);
      }
      if pool.value.data.OidV? {
        PoolModeRule(m, db, pool.value.data.oid, 0);
        PoolModeRule(m, db, pool.value.data.oid, 1);
      }
    } else {
      forall v ensures !Gives(attrs, BUFFER_PROFILE_POOL, v) {
        FindRule(attrs, BUFFER_PROFILE_POOL, v);
      }
    }
  }

  ghost predicate Lacks(m: Meta, store: Store, t: ObjectType, attrs: seq<Attribute>, id: AttrId) {
    && m.Has(t, id) && m.Of(t, id).mandatory && !m.Of(t, id).conditional
    && !Passed(attrs, id) && !LetPass(m, store, t, attrs, id)
  }

  ghost predicate LacksSome(m: Meta, store: Store, t: ObjectType, attrs: seq<Attribute>) {
    exists id :: Lacks(m, store, t, attrs, id)
  }

  /** A create lacks nothing exactly when every mandatory attribute that is not conditional
      is passed or let pass. */
  lemma MandatoryRule(m: Meta, db: Db, t: ObjectType, attrs: seq<Attribute>)
    requires Lawful(m) && AttrsOk(m, db)
    ensures AllMandatory(m, db.store, t, attrs) <==> !LacksSome(m, db.store, t, attrs)
  {
    forall id | m.Has(t, id)
      ensures id in m.Ids(t) && (MandatoryOk(m, db.store, t, attrs, id) <==> !Lacks(m, db.store, t, attrs, id))
    {
      assert AttrLawful(m, t, id);
      PresentRule(attrs, id);
      ExcusedRule(m, db, t, attrs, id);
    }
  }

  // --------------------------------------------------- conditional attributes

  /** The value a condition looks at: the one passed, or the default. */
  ghost predicate States(m: Meta, t: ObjectType, attrs: seq<Attribute>, id: AttrId, v: Value)
    requires m.Has(t, id)
  {
    if Passed(attrs, id) then Gives(attrs, id, v) else m.Of(t, id).default == Some(v)
  }

  /** The stated value is the condition's, a boolean or a number by the attribute's type. */
  ghost predicate Met(m: Meta, t: ObjectType, attrs: seq<Attribute>, c: Condition) {
    && m.Has(t, c.attrId)
    && exists v :: States(m, t, attrs, c.attrId, v)
                   && v.data == if m.Of(t, c.attrId).valueType == PlainT(BoolT)
                                then BoolV(c.flag) else NumberV(c.number)
  }

  ghost predicate Wanted(m: Meta, t: ObjectType, attrs: seq<Attribute>, id: AttrId)
    requires m.Has(t, id)
  {
    exists c <- m.Of(t, id).conditions :: Met(m, t, attrs, c)
  }

  lemma ConditionRule(m: Meta, t: ObjectType, attrs: seq<Attribute>, id: AttrId, c: Condition)
    requires Lawful(m) && Typed(m, t, attrs) && m.Has(t, id) && c in m.Of(t, id).conditions
    ensures ConditionHolds(m, t, attrs, c) <==> Met(m, t, attrs, c)
  {
    assert AttrLawful(m, t, id);
    var passed := Find(attrs, c.attrId);
    forall v ensures Find(attrs, c.attrId) == Some(v) <==> Gives(attrs, c.attrId, v) {
      FindRule(attrs, c.attrId, v);
    }
    FindRule(attrs, c.attrId, Plain(BoolV(false)));
    if passed.Some? {
      GivenTyped(m, t, attrs, c.attrId, passed.value);
    }
    StatedRule(m, t, attrs, c);
  }

  lemma GivenTyped(m: Meta, t: ObjectType, attrs: seq<Attribute>, id: AttrId, v: Value)
    requires Typed(m, t, attrs) && m.Has(t, id) && Gives(attrs, id, v)
    ensures WellTyped(m.Of(t, id).valueType, v)
  {
    var i :| 0 <= i < |attrs| && attrs[i] == Attribute(id, v) && forall j :: 0 <= j < i ==> attrs[j].id != id;
    assert attrs[i] in attrs;
  }

  lemma StatedRule(m: Meta, t: ObjectType, attrs: seq<Attribute>, c: Condition)
    requires m.Has(t, c.attrId) && m.Of(t, c.attrId).valueType in {PlainT(BoolT), PlainT(NumberT(S32))}
    requires forall v :: Find(attrs, c.attrId) == Some(v) <==> Gives(attrs, c.attrId, v)
    requires Find(attrs, c.attrId) == None <==> !Passed(attrs, c.attrId)
    requires Find(attrs, c.attrId).Some? ==> WellTyped(m.Of(t, c.attrId).valueType, Find(attrs, c.attrId).value)
    requires m.Of(t, c.attrId).default.Some? ==> WellTyped(m.Of(t, c.attrId).valueType, m.Of(t, c.attrId).default.value)
    ensures ConditionHolds(m, t, attrs, c) <==> Met(m, t, attrs, c)
  {
    var passed := Find(attrs, c.attrId);
    var stated := if passed.Some? then passed else m.Of(t, c.attrId).default;
    if stated.Some? {
      assert States(m, t, attrs, c.attrId, stated.value);
    }
    forall v | States(m, t, attrs, c.attrId, v) ensures stated == Some(v) {}
  }

  /** Conditional attributes: one that is wanted and missing is a missing mandatory
      attribute, one that is passed and not wanted is an invalid parameter. */
  lemma ConditionalRule(m: Meta, t: ObjectType, attrs: seq<Attribute>, id: AttrId)
    requires Lawful(m) && Typed(m, t, attrs) && m.Has(t, id) && m.Of(t, id).conditional
    ensures ConditionalStatus(m, t, attrs, id)
         == if Wanted(m, t, attrs, id) == Passed(attrs, id) then Success
            else if Passed(attrs, id) then InvalidParameter else MandatoryMissing
  {
    PresentRule(attrs, id);
    forall c | c in m.Of(t, id).conditions ensures ConditionHolds(m, t, attrs, c) <==> Met(m, t, attrs, c) {
      ConditionRule(m, t, attrs, id, c);
    }
  }

  ghost predicate Mismatched(m: Meta, t: ObjectType, attrs: seq<Attribute>, id: AttrId) {
    m.Has(t, id) && m.Of(t, id).conditional && Wanted(m, t, attrs, id) != Passed(attrs, id)
  }

  /** The first attribute of the metadata whose conditions and presence disagree is at
      place `n`, if any. */
  ghost predicate FirstMismatch(m: Meta, t: ObjectType, attrs: seq<Attribute>, ids: seq<AttrId>, n: nat) {
    && n <= |ids|
    && (forall i :: 0 <= i < n ==> !Mismatched(m, t, attrs, ids[i]))
    && (n < |ids| ==> Mismatched(m, t, attrs, ids[n]))
  }

  lemma {:induction false} ConditionalsRule(m: Meta, t: ObjectType, attrs: seq<Attribute>, ids: seq<AttrId>, n: nat)
    requires Lawful(m) && Typed(m, t, attrs) && FirstMismatch(m, t, attrs, ids, n)
    ensures ConditionalsStatus(m, t, attrs, ids)
         == if n == |ids| then Success
            else if Passed(attrs, ids[n]) then InvalidParameter else MandatoryMissing
    decreases |ids|
  {
    if ids != [] {
      if m.Has(t, ids[0]) && m.Of(t, ids[0]).conditional {
        ConditionalRule(m, t, attrs, ids[0]);
      }
      if n > 0 {
        assert forall i :: 0 <= i < n - 1 ==> ids[1..][i] == ids[i + 1];
        ConditionalsRule(m, t, attrs, ids[1..], n - 1);
      }
    }
  }

  // ------------------------------------------------------------------- create

  /** A struct member of an entry key. */
  predicate MemberAllowed(m: Meta, refs: References, sw: Oid, o: Oid, types: set<ObjectType>, nullable: bool) {
    if o == NULL_OID then nullable
    else o in refs && sw in refs && m.switchOf(o) == sw && m.typeOf(o) in types
  }

  predicate KeyAllowed(m: Meta, refs: References, key: MetaKey) {
    match key
    case OidKey(_, _) => true
    case FdbKey(sw, _, bv) =>
      MemberAllowed(m, refs, sw, sw, {SWITCH}, true) && MemberAllowed(m, refs, sw, bv, {BRIDGE, VLAN}, true)
    case RouteKey(sw, vr, _) =>
      MemberAllowed(m, refs, sw, sw, {SWITCH}, false) && MemberAllowed(m, refs, sw, vr, {VIRTUAL_ROUTER}, false)
    case NeighborKey(sw, rif, _) =>
      MemberAllowed(m, refs, sw, sw, {SWITCH}, false) && MemberAllowed(m, refs, sw, rif, {ROUTER_INTERFACE}, false)
  }

  /** The switch a create names: for entries the one in the key. */
  function NamedSwitch(key: MetaKey, sw: Oid): Oid {
    match key
    case OidKey(t, _) => if t == SWITCH then NULL_OID else sw
    case _ => key.switchId
  }

  /** The switch is a stored, counted switch; creating a switch needs none. */
  predicate SwitchAllowed(m: Meta, db: Db, key: MetaKey, sw: Oid) {
    (key.OidKey? && key.objectType == SWITCH)
    || (var s := NamedSwitch(key, sw);
        s != NULL_OID && m.typeOf(s) == SWITCH && OidKey(SWITCH, s) in db.store && s in db.refs)
  }

  /** Some key attribute is passed, and a stored object already has the key text. */
  ghost predicate KeyTaken(m: Meta, db: Db, key: MetaKey, attrs: seq<Attribute>) {
    && (exists i :: 0 <= i < |attrs| && m.Has(key.Type(), attrs[i].id) && m.Of(key.Type(), attrs[i].id).key)
    && exists k <- db.keys :: db.keys[k] == KeyText(m, key.Type(), StoredAttrs(attrs))
  }

  /** The type has metadata. */
  ghost predicate Described(m: Meta, t: ObjectType) { exists id :: m.Has(t, id) }

  /** The faults of the attribute list as a whole, in the order they are looked for; `c` is
      the place of the first conditional attribute of the metadata that is amiss. */
  ghost function ListAnswer(m: Meta, db: Db, key: MetaKey, attrs: seq<Attribute>, c: nat): Status
    requires c <= |m.Ids(key.Type())|
  {
    var t := key.Type();
    if !key.OidKey? && key in db.store then ItemAlreadyExists
    else if !Described(m, t) then Failure
    else if LacksSome(m, db.store, t, attrs) then MandatoryMissing
    else if c < |m.Ids(t)| then (if Passed(attrs, m.Ids(t)[c]) then InvalidParameter else MandatoryMissing)
    else if KeyTaken(m, db, key, attrs) then InvalidParameter
    else Success
  }

  /** The answer of a create; `n` is the place of the first attribute that is not
      acceptable. */
  ghost function CreateAnswer(m: Meta, db: Db, key: MetaKey, sw: Oid, attrs: seq<Attribute>, n: nat, c: nat): Status
    requires n <= |attrs| && c <= |m.Ids(key.Type())|
  {
    if |attrs| > 0x1000 || !SwitchAllowed(m, db, key, sw) || !KeyAllowed(m, db.refs, key) then InvalidParameter
    else if n < |attrs| then AttrRefusal(m, key.Type(), attrs, n)
    else ListAnswer(m, db, key, attrs, c)
  }

  lemma KeyRule(m: Meta, refs: References, key: MetaKey, sw: Oid)
    requires !key.OidKey? ==> sw == key.switchId
    ensures MembersOk(m, refs, key, sw) <==> KeyAllowed(m, refs, key)
  {
  }

  lemma HasKeysRule(m: Meta, t: ObjectType, attrs: seq<Attribute>)
    ensures HasKeys(m, t, attrs) <==>
              exists i :: 0 <= i < |attrs| && m.Has(t, attrs[i].id) && m.Of(t, attrs[i].id).key
  {
    forall i: nat | i < |attrs|
      ensures IsKey(m, t, attrs[i].id) <==> m.Has(t, attrs[i].id) && m.Of(t, attrs[i].id).key
    {
    }
  }

  lemma WholeListRule(m: Meta, db: Db, key: MetaKey, attrs: seq<Attribute>, c: nat)
    requires Lawful(m) && AttrsOk(m, db) && Typed(m, key.Type(), attrs)
    requires FirstMismatch(m, key.Type(), attrs, m.Ids(key.Type()), c)
    ensures WholeListStatus(m, db, key, attrs) == ListAnswer(m, db, key, attrs, c)
  {
    var t := key.Type();
    MandatoryRule(m, db, t, attrs);
    ConditionalsRule(m, t, attrs, m.Ids(t), c);
    HasKeysRule(m, t, attrs);
    IdsRule(m, t);
  }

  lemma IdsRule(m: Meta, t: ObjectType)
    requires Lawful(m)
    ensures m.Ids(t) == [] <==> !Described(m, t)
  {
    if m.Ids(t) != [] {
      assert m.Ids(t)[0] in m.Ids(t);
    }
    forall id | m.Has(t, id) ensures id in m.Ids(t) {
      assert AttrLawful(m, t, id);
    }
  }

  /** The checks of the whole call, then those of each attribute, then those of the list. */
  lemma CreateFront(m: Meta, db: Db, key: MetaKey, sw: Oid, attrs: seq<Attribute>)
    requires Typed(m, key.Type(), attrs) && (!key.OidKey? ==> sw == key.switchId)
    ensures CreateStatus(m, db, key, sw, attrs) ==
      var s := AttrsStatus(m, db.refs, key.Type(), NamedSwitch(key, sw), attrs, 0);
      if |attrs| > 0x1000 || !SwitchAllowed(m, db, key, sw) || !KeyAllowed(m, db.refs, key) then InvalidParameter
      else if s != Success then s
      else WholeListStatus(m, db, key, attrs)
  {
    KeyRule(m, db.refs, key, NamedSwitch(key, sw));
  }

  /** Create answers exactly that. */
  lemma CreateRule(m: Meta, db: Db, key: MetaKey, sw: Oid, attrs: seq<Attribute>, n: nat, c: nat)
    requires Lawful(m) && AttrsOk(m, db) && Typed(m, key.Type(), attrs) && (!key.OidKey? ==> sw == key.switchId)
    requires FirstRefused(m, db.refs, key.Type(), NamedSwitch(key, sw), attrs, n)
    requires FirstMismatch(m, key.Type(), attrs, m.Ids(key.Type()), c)
    ensures CreateStatus(m, db, key, sw, attrs) == CreateAnswer(m, db, key, sw, attrs, n, c)
  {
    CreateFront(m, db, key, sw, attrs);
    AttrsRule(m, db.refs, key.Type(), NamedSwitch(key, sw), attrs, n, 0);
    WholeListRule(m, db, key, attrs, c);
  }

  lemma {:induction false} FirstRefusedExists(m: Meta, refs: References, t: ObjectType, sw: Oid,
                                              attrs: seq<Attribute>, i: nat) returns (n: nat)
    requires i <= |attrs| && forall j :: 0 <= j < i ==> AttrAllowed(m, refs, t, sw, attrs, j)
    ensures FirstRefused(m, refs, t, sw, attrs, n)
    decreases |attrs| - i
  {
    n := i;
    if i < |attrs| && AttrAllowed(m, refs, t, sw, attrs, i) {
      n := FirstRefusedExists(m, refs, t, sw, attrs, i + 1);
    }
  }

  lemma {:induction false} FirstMismatchExists(m: Meta, t: ObjectType, attrs: seq<Attribute>, ids: seq<AttrId>, i: nat)
    returns (n: nat)
    requires i <= |ids| && forall j :: 0 <= j < i ==> !Mismatched(m, t, attrs, ids[j])
    ensures FirstMismatch(m, t, attrs, ids, n)
    decreases |ids| - i
  {
    n := i;
    if i < |ids| && !Mismatched(m, t, attrs, ids[i]) {
      n := FirstMismatchExists(m, t, attrs, ids, i + 1);
    }
  }

  /** A create is accepted exactly when none of these faults is there. */
  lemma CreateAcceptedExactly(m: Meta, db: Db, key: MetaKey, sw: Oid, attrs: seq<Attribute>)
    requires Lawful(m) && AttrsOk(m, db) && Typed(m, key.Type(), attrs) && (!key.OidKey? ==> sw == key.switchId)
    ensures var t := key.Type();
            CreateStatus(m, db, key, sw, attrs) == Success <==>
              && |attrs| <= 0x1000 && SwitchAllowed(m, db, key, sw) && KeyAllowed(m, db.refs, key)
              && (forall i :: 0 <= i < |attrs| ==> AttrAllowed(m, db.refs, t, NamedSwitch(key, sw), attrs, i))
              && (!key.OidKey? ==> key !in db.store)
              && Described(m, t) && !LacksSome(m, db.store, t, attrs)
              && (forall id :: !Mismatched(m, t, attrs, id))
              && !KeyTaken(m, db, key, attrs)
  {
    var t := key.Type();
    var n := FirstRefusedExists(m, db.refs, t, NamedSwitch(key, sw), attrs, 0);
    var c := FirstMismatchExists(m, t, attrs, m.Ids(t), 0);
    CreateRule(m, db, key, sw, attrs, n, c);
    forall id | m.Has(t, id) ensures id in m.Ids(t) {
      assert AttrLawful(m, t, id);
    }
    if c < |m.Ids(t)| {
      assert Mismatched(m, t, attrs, m.Ids(t)[c]);
    }
  }

  lemma AcceptedConditional(m: Meta, db: Db, key: MetaKey, sw: Oid, attrs: seq<Attribute>, id: AttrId)
    requires Lawful(m) && Typed(m, key.Type(), attrs)
    requires CreateStatus(m, db, key, sw, attrs) == Success
    requires m.Has(key.Type(), id) && m.Of(key.Type(), id).conditional
    ensures ConditionalStatus(m, key.Type(), attrs, id) == Success
  {
    assert AttrLawful(m, key.Type(), id);
    ConditionalsAccepted(m, key.Type(), attrs, m.Ids(key.Type()));
  }

  /** An accepted create stores a conditional attribute exactly when, for some condition of
      its metadata, the value the list gives the condition's attribute, or the default where
      it gives none, is the condition's. */
  lemma ConditionalExact(m: Meta, db: Db, key: MetaKey, sw: Oid, attrs: seq<Attribute>, id: AttrId)
    requires Lawful(m) && Typed(m, key.Type(), attrs)
    requires CreateStatus(m, db, key, sw, attrs) == Success
    requires m.Has(key.Type(), id) && m.Of(key.Type(), id).conditional
    ensures id in StoredAttrs(attrs) <==> exists c <- m.Of(key.Type(), id).conditions ::
              && m.Has(key.Type(), c.attrId)
              && exists v :: States(m, key.Type(), attrs, c.attrId, v)
                   && v.data == if m.Of(key.Type(), c.attrId).valueType == PlainT(BoolT)
                                then BoolV(c.flag) else NumberV(c.number)
  {
    AcceptedConditional(m, db, key, sw, attrs, id);
    ConditionalRule(m, key.Type(), attrs, id);
    PresentRule(attrs, id);
    WantedRule(m, key.Type(), attrs, id);
  }

  lemma WantedRule(m: Meta, t: ObjectType, attrs: seq<Attribute>, id: AttrId)
    requires m.Has(t, id)
    ensures Wanted(m, t, attrs, id) <==> exists c <- m.Of(t, id).conditions ::
              && m.Has(t, c.attrId)
              && exists v :: States(m, t, attrs, c.attrId, v)
                   && v.data == if m.Of(t, c.attrId).valueType == PlainT(BoolT)
                                then BoolV(c.flag) else NumberV(c.number)
  {
    forall c: Condition
      ensures Met(m, t, attrs, c) <==>
                m.Has(t, c.attrId)
                && exists v :: States(m, t, attrs, c.attrId, v)
                     && v.data == if m.Of(t, c.attrId).valueType == PlainT(BoolT)
                                  then BoolV(c.flag) else NumberV(c.number)
    {
    }
  }

  // ------------------------------------------------------------ entry checks

  /** A stored, non-null oid of this type. */
  predicate Usable(m: Meta, store: Store, t: ObjectType, oid: Oid) {
    oid != NULL_OID && t != NULL_TYPE && m.typeOf(oid) == t && OidKey(t, oid) in store
  }

  /** fdb, neighbor, route, L2MC, IPMC, multicast fdb, inseg and NAT entries */
  predicate EntryType(t: ObjectType) { t in {32, 36, 37, 53, 54, 55, 63, 82} }

  /** What a call asks of its key besides existence. */
  predicate Sound(m: Meta, store: Store, key: MetaKey, call: Call) {
    match key
    case OidKey(t, oid) => 0 < t < 90 && !EntryType(t) && (call.CreateCall? || Usable(m, store, t, oid))
    case FdbKey(_, _, _) => true
    case NeighborKey(_, rif, ip) => !ip.OtherFamily? && Usable(m, store, ROUTER_INTERFACE, rif)
    case RouteKey(_, vr, Prefix4(_, mask)) => IpMask.Contiguous(mask) && Usable(m, store, VIRTUAL_ROUTER, vr)
    case RouteKey(_, vr, Prefix6(_, mask)) => IpMask.Contiguous(mask) && Usable(m, store, VIRTUAL_ROUTER, vr)
    case RouteKey(_, _, _) => false
  }

  /** An entry must not be stored to be created and must be stored for any other call,
      except that an fdb entry may be asked for at any time. */
  lemma EntryRule(m: Meta, store: Store, key: MetaKey, call: Call)
    ensures EntryStatus(m, store, key, call) == Success <==>
              && Sound(m, store, key, call)
              && (!key.OidKey? ==>
                    match call
                    case CreateCall => key !in store
                    case GetCall => key.FdbKey? || key in store
                    case OtherCall => key in store)
    ensures EntryStatus(m, store, key, call) == ItemAlreadyExists <==>
              Sound(m, store, key, call) && !key.OidKey? && call.CreateCall? && key in store
    ensures EntryStatus(m, store, key, call) == Fatal <==>
              match key
              case OidKey(t, _) => 0 < t < 90 && EntryType(t)
              case RouteKey(_, vr, Prefix4(_, mask)) => !IpMask.Contiguous(mask) && Usable(m, store, VIRTUAL_ROUTER, vr)
              case _ => false
    ensures EntryStatus(m, store, key, call) in {Success, InvalidParameter, ItemAlreadyExists, Fatal}
  {
  }

  // ------------------------------------------------------------------ set

  /** The switch an object lies on. */
  function HomeSwitch(m: Meta, key: MetaKey): Oid { if key.OidKey? then m.switchOf(key.oid) else key.switchId }

  /** Set: an unknown attribute fails; a read-only, create-only or key attribute, an
      uncounted switch, an unacceptable value and a missing or mistyped object are invalid
      parameters; a type that is not handled throws; anything else is accepted. */
  lemma SetRule(m: Meta, db: Db, key: MetaKey, a: Attribute)
    requires Typed(m, key.Type(), [a])
    ensures SetStatus(m, db.refs, db.store, key, a) ==
      if !m.Has(key.Type(), a.id) then Failure
      else
        var md := m.Of(key.Type(), a.id);
        if md.readOnly || md.createOnly || md.key || (key.OidKey? && HomeSwitch(m, key) !in db.refs)
        then InvalidParameter
        else if Unhandled(md.valueType, false) then Fatal
        else if !ValueAllowed(m, db.refs, key.Type(), md, HomeSwitch(m, key), a.value, false)
                || key !in db.store
                || (key.OidKey? && (m.typeOf(key.oid) == NULL_TYPE || m.typeOf(key.oid) != key.objectType))
        then InvalidParameter
        else Success
  {
    assert a in [a];
    if m.Has(key.Type(), a.id) {
      ValueRule(m, db.refs, key.Type(), m.Of(key.Type(), a.id), HomeSwitch(m, key), a.value, false);
    }
  }

  // ------------------------------------------------------------------ get

  /** The types a get cannot ask for; it throws on them. */
  predicate Unasked(vt: ValueType) {
    match vt
    case PlainT(PrefixT) => true
    case PlainT(NumberListT(k)) => k in {U64, S64}
    case PlainT(RangeT(k)) => k !in {U32, S32}
    case PlainT(_) => false
    case _ =>
      vt.t in {NumberT(U64), NumberT(S64)} || !(vt.t.NumberT? || vt.t in {BoolT, MacT, Ip4T, Ip6T, OidT, OidListT})
  }

  /** The buffer passed for a list is sound; VLAN lists hold up to 4094. */
  predicate BufferAllowed(vt: ValueType, v: Value) {
    match v.data
    case OidListV(l) => ListAllowed(l)
    case AddressListV(l) => ListAllowed(l)
    case CapabilityV(_, l) => ListAllowed(l)
    case NumberListV(l) =>
      if vt == PlainT(VlanListT) then (match l case Null(n) => n == 0 case Items(items) => 0 < |items| <= 4094)
      else ListAllowed(l)
    case _ => true
  }

  predicate Askable(m: Meta, t: ObjectType, a: Attribute) {
    m.Has(t, a.id) && !Unasked(m.Of(t, a.id).valueType) && BufferAllowed(m.Of(t, a.id).valueType, a.value)
  }

  lemma QueryRule(vt: ValueType, v: Value)
    requires WellTyped(vt, v)
    ensures GetAttrStatus(vt, v)
         == if Unasked(vt) then Fatal else if BufferAllowed(vt, v) then Success else InvalidParameter
  {
  }

  /** The attributes of a query: the first that cannot be asked for decides. */
  lemma {:induction false} QueriesRule(m: Meta, t: ObjectType, query: seq<Attribute>, n: nat)
    requires Typed(m, t, query) && n <= |query| && forall i :: 0 <= i < n ==> Askable(m, t, query[i])
    requires n < |query| ==> !Askable(m, t, query[n])
    ensures GetAttrsStatus(m, t, query)
         == if n == |query| then Success
            else if !m.Has(t, query[n].id) then Failure
            else if Unasked(m.Of(t, query[n].id).valueType) then Fatal
            else InvalidParameter
    decreases |query|
  {
    if query != [] {
      assert query[0] in query;
      if m.Has(t, query[0].id) {
        QueryRule(m.Of(t, query[0].id).valueType, query[0].value);
      }
      if n > 0 {
        QueriesRule(m, t, query[1..], n - 1);
      }
    }
  }

  /** Get is accepted exactly for one to 4096 attributes that can be asked for, of a stored
      object of its own type. */
  lemma GetAcceptedExactly(m: Meta, db: Db, key: MetaKey, query: seq<Attribute>)
    requires Typed(m, key.Type(), query)
    ensures GetStatus(m, db.store, key, query) == Success <==>
              && 1 <= |query| <= 0x1000 && (forall i :: 0 <= i < |query| ==> Askable(m, key.Type(), query[i]))
              && key in db.store
              && (key.OidKey? ==> m.typeOf(key.oid) != NULL_TYPE && m.typeOf(key.oid) == key.objectType)
  {
    var n := FirstUnaskable(m, key.Type(), query, 0);
    QueriesRule(m, key.Type(), query, n);
  }

  lemma {:induction false} FirstUnaskable(m: Meta, t: ObjectType, query: seq<Attribute>, i: nat) returns (n: nat)
    requires i <= |query| && forall j :: 0 <= j < i ==> Askable(m, t, query[j])
    ensures n <= |query| && (forall j :: 0 <= j < n ==> Askable(m, t, query[j]))
    ensures n < |query| ==> !Askable(m, t, query[n])
    decreases |query| - i
  {
    n := i;
    if i < |query| && Askable(m, t, query[i]) {
      n := FirstUnaskable(m, t, query, i + 1);
    }
  }

  // ---------------------------------------------------------------- remove

  /** Nothing but null oids in the attributes that hold oids and can be written; an oid
      attribute of another type than object id or object list spoils the default state. */
  predicate IsDefault(m: Meta, db: Db, oid: Oid) {
    var t, k := m.typeOf(oid), OidKey(m.typeOf(oid), oid);
    && oid in db.refs && k in db.store
    && forall id <- db.store[k] :: m.Has(t, id) && !m.Of(t, id).readOnly && m.Of(t, id).allowed != {} ==>
         && db.store[k][id].Plain? && (db.store[k][id].data.OidV? || db.store[k][id].data.OidListV?)
         && forall o :: Mentions(db.store[k][id].data, o) ==> o == NULL_OID
  }

  lemma DefaultRule(m: Meta, db: Db, oid: Oid)
    ensures InDefaultState(m, db.refs, db.store, oid) <==> IsDefault(m, db, oid)
  {
    var t, k := m.typeOf(oid), OidKey(m.typeOf(oid), oid);
    if oid in db.refs && k in db.store {
      forall id | id in db.store[k]
        ensures DefaultAttr(m, t, id, db.store[k][id]) <==>
                  (m.Has(t, id) && !m.Of(t, id).readOnly && m.Of(t, id).allowed != {} ==>
                     && db.store[k][id].Plain? && (db.store[k][id].data.OidV? || db.store[k][id].data.OidListV?)
                     && forall o :: Mentions(db.store[k][id].data, o) ==> o == NULL_OID)
      {
        DefaultAttrRule(m, t, id, db.store[k][id]);
      }
    }
  }

  lemma DefaultAttrRule(m: Meta, t: ObjectType, id: AttrId, v: Value)
    ensures DefaultAttr(m, t, id, v) <==>
              (m.Has(t, id) && !m.Of(t, id).readOnly && m.Of(t, id).allowed != {} ==>
                 && v.Plain? && (v.data.OidV? || v.data.OidListV?)
                 && forall o :: Mentions(v.data, o) ==> o == NULL_OID)
  {
    forall o ensures o in DataRefs(v.data) <==> Mentions(v.data, o) {
      MentionsRule(v.data, o);
    }
    match v
    case Plain(OidV(oid)) => assert oid in DataRefs(v.data);
    case Plain(OidListV(oids)) => assert DataRefs(v.data) == oids.Elements();
    case _ =>
  }

  lemma PortGroupRule(m: Meta, db: Db, port: Oid)
    requires port in db.related
    ensures PortStatus(m, db.refs, db.store, db.related, port) == Success && port in db.refs && db.refs[port] == 0 <==>
              forall g <- {port} + db.related[port] :: IsDefault(m, db, g) && db.refs[g] == 0
  {
    PortAcceptedExactly(m, db, port);
    DefaultRule(m, db, port);
    forall g | g in db.related[port]
      ensures RelatedOk(m, db.refs, db.store, g) <==> IsDefault(m, db, g) && db.refs[g] == 0
    {
      DefaultRule(m, db, g);
    }
    assert port in {port} + db.related[port];
    assert forall g <- {port} + db.related[port] :: g == port || g in db.related[port];
  }

  lemma StoredOid(m: Meta, db: Db, key: MetaKey)
    requires DomainAgrees(m, db) && key in db.store && key.OidKey?
    ensures key.oid != NULL_OID && key.oid in db.refs && m.typeOf(key.oid) == key.objectType
  {
    assert key == KeyOf(m, key.oid);
  }

  /** Remove, in a reachable state: a missing object is an invalid parameter; so is one that
      something refers to, but for a switch; a port with related objects must, with all of
      them, be unreferenced and in default state; anything else is accepted. */
  lemma RemoveRule(m: Meta, db: Db, key: MetaKey)
    requires Inv(m, db)
    ensures RemoveStatus(m, db, key) == Success <==>
              && key in db.store && (key.OidKey? ==> key.objectType != NULL_TYPE)
              && (key.OidKey? && key.objectType != SWITCH ==> key.oid in db.refs && db.refs[key.oid] == 0)
              && (key.OidKey? && key.objectType == PORT && key.oid in db.related ==>
                    forall g <- {key.oid} + db.related[key.oid] :: IsDefault(m, db, g) && db.refs[g] == 0)
    ensures key !in db.store ==> RemoveStatus(m, db, key) == InvalidParameter
    ensures key in db.store && key.OidKey? && key.objectType != SWITCH
            && key.oid in db.refs && db.refs[key.oid] != 0 ==>
              RemoveStatus(m, db, key) == InvalidParameter
  {
    if key in db.store && key.OidKey? {
      StoredOid(m, db, key);
      if key.objectType == PORT && key.oid in db.related {
        PortGroupRule(m, db, key.oid);
      }
    }
  }
}
