/** How the reference bags of objects and of the whole store change with the store. */
module RefBags {
  import opened Sai
  import opened Stored
  import opened MetaState
  import Bags

  lemma SameMap<K, V>(a: map<K, V>, b: map<K, V>)
    requires a.Keys == b.Keys
    requires forall k :: k in a ==> a[k] == b[k]
    ensures a == b
  {
  }

  lemma RefMapMinus(a: Attrs, id: AttrId)
    ensures RefMap(a - {id}) == RefMap(a) - {id}
  {
    SameMap(RefMap(a - {id}), RefMap(a) - {id});
  }

  lemma RefMapUpdate(a: Attrs, id: AttrId, v: Value)
    ensures RefMap(a[id := v]) == RefMap(a)[id := multiset(Refs(v))]
  {
    SameMap(RefMap(a[id := v]), RefMap(a)[id := multiset(Refs(v))]);
  }

  lemma BagMapMinus(s: Store, ks: set<MetaKey>)
    ensures BagMap(s - ks) == BagMap(s) - ks
  {
    SameMap(BagMap(s - ks), BagMap(s) - ks);
  }

  lemma BagMapUpdate(s: Store, k: MetaKey, a: Attrs)
    ensures BagMap(s[k := a]) == BagMap(s)[k := ObjectBag(k, a)]
  {
    SameMap(BagMap(s[k := a]), BagMap(s)[k := ObjectBag(k, a)]);
  }

  lemma BagMapErase(s: Store, ks: set<MetaKey>)
    ensures BagMap(s) == BagMap(Restrict(s, ks)) + BagMap(s - ks)
  {
    SameMap(BagMap(s), BagMap(Restrict(s, ks)) + BagMap(s - ks));
  }

  lemma AttrBagUpdate(a: Attrs, id: AttrId, v: Value)
    ensures AttrBag(a[id := v]) == multiset(Refs(v)) + AttrBag(a - {id})
  {
    RefMapUpdate(a, id, v);
    RefMapMinus(a, id);
    Bags.SumUpdate(RefMap(a), id, multiset(Refs(v)));
  }

  lemma AttrBagSplit(a: Attrs, id: AttrId)
    requires id in a
    ensures AttrBag(a) == multiset(Refs(a[id])) + AttrBag(a - {id})
  {
    RefMapMinus(a, id);
    Bags.SumSplit(RefMap(a), id);
  }

  lemma InAttrBag(a: Attrs, o: Oid)
    ensures o in AttrBag(a) <==> exists id :: id in a && o in Refs(a[id])
  {
    Bags.InSum(RefMap(a), o);
    if id :| id in RefMap(a) && o in RefMap(a)[id] {
      assert id in a && o in Refs(a[id]);
    }
    if id :| id in a && o in Refs(a[id]) {
      assert id in RefMap(a) && o in RefMap(a)[id];
    }
  }

  lemma EmptyAttrBag()
    ensures AttrBag(map[]) == multiset{}
  {
    assert RefMap(map[]) == map[];
  }

  lemma EmptyStoreBag()
    ensures StoreBag(map[]) == multiset{}
  {
    assert BagMap(map[]) == map[];
  }

  lemma StoreBagUpdate(s: Store, k: MetaKey, a: Attrs)
    ensures StoreBag(s[k := a]) == ObjectBag(k, a) + StoreBag(s - {k})
  {
    BagMapUpdate(s, k, a);
    BagMapMinus(s, {k});
    Bags.SumUpdate(BagMap(s), k, ObjectBag(k, a));
  }

  lemma StoreBagSplit(s: Store, k: MetaKey)
    requires k in s
    ensures StoreBag(s) == ObjectBag(k, s[k]) + StoreBag(s - {k})
  {
    BagMapMinus(s, {k});
    Bags.SumSplit(BagMap(s), k);
  }

  lemma StoreBagErase(s: Store, ks: set<MetaKey>)
    ensures StoreBag(s) == StoreBag(Restrict(s, ks)) + StoreBag(s - ks)
  {
    BagMapErase(s, ks);
    Bags.SumDisjoint(BagMap(Restrict(s, ks)), BagMap(s - ks));
  }

  lemma InStoreBag(s: Store, o: Oid)
    ensures o in StoreBag(s) <==> exists k :: k in s && o in ObjectBag(k, s[k])
  {
    Bags.InSum(BagMap(s), o);
    if k :| k in BagMap(s) && o in BagMap(s)[k] {
      assert k in s && o in ObjectBag(k, s[k]);
    }
    if k :| k in s && o in ObjectBag(k, s[k]) {
      assert k in BagMap(s) && o in BagMap(s)[k];
    }
  }

  lemma RestrictOne(s: Store, k: MetaKey)
    requires k in s
    ensures StoreBag(Restrict(s, {k})) == ObjectBag(k, s[k])
  {
    var one := Restrict(s, {k});
    StoreBagSplit(one, k);
    assert one - {k} == map[];
    EmptyStoreBag();
  }

  // --------------------------------------------------------- stored attributes

  predicate Distinct(attrs: seq<Attribute>) {
    forall i, j :: 0 <= i < j < |attrs| ==> attrs[i].id != attrs[j].id
  }

  lemma StoredIds(attrs: seq<Attribute>)
    ensures forall id :: id in StoredAttrs(attrs) <==> exists i: nat :: i < |attrs| && attrs[i].id == id
  {
    forall id | id in IdSet(attrs) ensures exists i: nat :: i < |attrs| && attrs[i].id == id {
      var a :| a in attrs && a.id == id;
    }
    forall i: nat | i < |attrs| ensures attrs[i].id in IdSet(attrs) {
      assert attrs[i] in attrs;
    }
  }

  lemma StoreStep(attrs: seq<Attribute>, i: nat)
    requires i < |attrs|
    ensures StoredAttrs(attrs[..i + 1]) == WithAttr(StoredAttrs(attrs[..i]), attrs[i])
  {
    var init, next := attrs[..i], attrs[..i + 1];
    assert next == init + [attrs[i]] && next[..|next| - 1] == init;
    assert IdSet(next) == IdSet(init) + {attrs[i].id} by {
      assert attrs[i] in next;
    }
    SameMap(StoredAttrs(next), WithAttr(StoredAttrs(init), attrs[i]));
  }

  lemma {:induction false} LastAt(attrs: seq<Attribute>, i: nat)
    requires Distinct(attrs) && i < |attrs|
    ensures attrs[i].id in IdSet(attrs) && LastValue(attrs, attrs[i].id) == attrs[i].value
  {
    assert attrs[i] in attrs;
    if i < |attrs| - 1 {
      LastAt(attrs[..|attrs| - 1], i);
    }
  }

  lemma StoredAt(attrs: seq<Attribute>, i: nat)
    requires Distinct(attrs) && i < |attrs|
    ensures attrs[i].id in StoredAttrs(attrs)
    ensures StoredAttrs(attrs)[attrs[i].id] == Canon(attrs[i].value)
  {
    LastAt(attrs, i);
  }

  /** Storing one more attribute of a list without repetitions adds its references. */
  lemma StoreStepBag(attrs: seq<Attribute>, i: nat)
    requires Distinct(attrs) && i < |attrs|
    ensures AttrBag(StoredAttrs(attrs[..i + 1]))
         == AttrBag(StoredAttrs(attrs[..i])) + multiset(Refs(attrs[i].value))
  {
    var init := StoredAttrs(attrs[..i]);
    StoreStep(attrs, i);
    StoredIds(attrs[..i]);
    assert attrs[i].id !in init;
    assert init - {attrs[i].id} == init;
    AttrBagUpdate(init, attrs[i].id, Canon(attrs[i].value));
    CanonRefs(attrs[i].value);
  }

  lemma CanonRefs(v: Value)
    ensures Refs(Canon(v)) == Refs(v)
  {
  }
}
