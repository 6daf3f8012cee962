/** The maps of the metadata database are indexed by the text of a key. In every reachable
    state all stored keys print, and a map indexed by texts behaves as the map over
    structured keys that it represents. */
module StoreNames {
  import opened Sai
  import opened Stored
  import opened MetaState
  import opened MetaInvariant
  import opened MetaRuns
  import opened ValueText
  import opened KeyName

  /** The vendor answers an oid's type with one of the object types. */
  ghost predicate TypesBounded(m: Meta) { forall o: Oid :: m.typeOf(o) < OBJECT_TYPE_MAX }

  predicate KeysPrint(store: Store) { forall k <- store :: KeyPrints(k) }

  /** Every key a call may create prints; the other validators see to it. */
  lemma CreatedKeyPrints(m: Meta, store: Store, key: MetaKey)
    requires EntryStatus(m, store, key, CreateCall) == Success
    ensures KeyPrints(key)
  {
  }

  lemma {:induction false} SnoopsPrint(m: Meta, db: Db, oids: seq<Oid>)
    requires Lawful(m) && TypesBounded(m) && KeysPrint(db.store)
    ensures KeysPrint(AfterSnoops(m, db, oids).store)
    decreases |oids|
  {
    if oids != [] {
      assert !IsEntryType(m.typeOf(oids[0]));
      SnoopsPrint(m, AfterSnoop(m, db, oids[0]), oids[1..]);
    }
  }

  lemma {:induction false} MoveKeepsKeys(m: Meta, db: Db, key: MetaKey, attrs: seq<Attribute>)
    requires Typed(m, key.Type(), attrs)
    ensures AfterMove(m, db, key, attrs).store.Keys == db.store.Keys
    decreases |attrs|
  {
    if attrs != [] {
      TypedSplit(m, key.Type(), attrs);
      if SetStatus(m, db.refs, db.store, key, attrs[0]) != Fatal {
        MoveKeepsKeys(m, AfterMoveStep(m, db, key, attrs[0]), key, attrs[1..]);
      }
    }
  }

  lemma NotifyPrints(m: Meta, db: Db, key: MetaKey, kind: FdbKind, attrs: seq<Attribute>, garbage: bool)
    requires Lawful(m) && TypesBounded(m) && KeysPrint(db.store)
    requires key.FdbKey? && Typed(m, FDB_ENTRY, attrs) && Typed(m, FDB_ENTRY, Completed(attrs))
    ensures KeysPrint(AfterFdb(m, db, key, kind, attrs, garbage).store)
  {
    var oids := [key.bvId] + NotifiedOids(m, attrs);
    SnoopsPrint(m, db, oids);
    MoveKeepsKeys(m, AfterSnoops(m, db, oids), key, attrs);
  }

  lemma ApplyPrints(m: Meta, db: Db, e: Event)
    requires Lawful(m) && TypesBounded(m) && KeysPrint(db.store) && WellFormed(m, e)
    ensures KeysPrint(Apply(m, db, e).store)
  {
    match e
    case Create(key, sw, attrs, _, _) =>
      if CreateAccepted(m, db, key, sw, attrs) {
        CreatedKeyPrints(m, db.store, key);
      }
    case Set(_, _, _) =>
    case Remove(_, _) =>
    case Get(_, _, answer) =>
      if answer.Some? {
        SnoopsPrint(m, db, ResultOids(answer.value));
      }
    case Notify(key, kind, attrs, garbage) => NotifyPrints(m, db, key, kind, attrs, garbage);
  }

  lemma {:induction false} RunPrints(m: Meta, db: Db, es: seq<Event>)
    requires Lawful(m) && TypesBounded(m) && KeysPrint(db.store) && forall e <- es :: WellFormed(m, e)
    ensures KeysPrint(Run(m, db, es).store)
    decreases |es|
  {
    if es != [] {
      assert es[0] in es;
      ApplyPrints(m, db, es[0]);
      RunPrints(m, Apply(m, db, es[0]), es[1..]);
    }
  }

  /** In every reachable state all stored keys print. */
  lemma StoredKeysPrint(m: Meta, db: Db)
    requires Lawful(m) && TypesBounded(m) && Reachable(m, db)
    ensures KeysPrint(db.store)
  {
    var es: seq<Event> :|
      (forall e <- es :: WellFormed(m, e)) && AdmissibleRun(m, EMPTY, es) && db == Run(m, EMPTY, es);
    RunPrints(m, EMPTY, es);
  }

  // ------------------------------------------------------- maps indexed by text

  /** The entry of `k` is found under its text. */
  ghost predicate KeyNamed<V(!new)>(n: Names, store: map<MetaKey, V>, named: map<string, V>, k: MetaKey)
    requires k in store
  {
    var s := SerializeKey(n, k);
    KeyPrints(k) && s.Some? && s.value in named && named[s.value] == store[k]
  }

  /** The text `s` is that of a stored key. */
  ghost predicate NameStands<V(!new)>(n: Names, store: map<MetaKey, V>, s: string) {
    var k := DeserializeKey(n, s);
    k.Some? && k.value in store && SerializeKey(n, k.value) == Some(s)
  }

  /** `named` is `store` with every key replaced by its text. */
  ghost predicate Represents<V(!new)>(n: Names, store: map<MetaKey, V>, named: map<string, V>) {
    && (forall k <- store :: KeyNamed(n, store, named, k))
    && (forall s <- named :: NameStands(n, store, s))
  }

  /** Looking a text up finds what the structured map holds for its key. */
  lemma NamedLookup<V(!new)>(n: Names, store: map<MetaKey, V>, named: map<string, V>, k: MetaKey)
    requires NamesLawful(n) && Represents(n, store, named) && KeyPrints(k)
    ensures SerializeKey(n, k).Some?
    ensures SerializeKey(n, k).value in named <==> k in store
    ensures k in store ==> named[SerializeKey(n, k).value] == store[k]
  {
    KeyRoundTrip(n, k);
    if k in store { assert KeyNamed(n, store, named, k); }
    if SerializeKey(n, k).value in named { assert NameStands(n, store, SerializeKey(n, k).value); }
  }

  lemma OthersNamed<V(!new)>(n: Names, store: map<MetaKey, V>, named: map<string, V>, k: MetaKey, j: MetaKey)
    requires NamesLawful(n) && Represents(n, store, named) && KeyPrints(k) && j in store && j != k
    ensures KeyNamed(n, store, named, j) && SerializeKey(n, j) != SerializeKey(n, k)
  {
    assert KeyNamed(n, store, named, j);
    KeyInjective(n, j, k);
  }

  lemma OthersStand<V(!new)>(n: Names, store: map<MetaKey, V>, named: map<string, V>, k: MetaKey, s: string)
    requires NamesLawful(n) && Represents(n, store, named) && KeyPrints(k)
    requires s in named && SerializeKey(n, k) != Some(s)
    ensures NameStands(n, store, s) && DeserializeKey(n, s).value != k
  {
    assert NameStands(n, store, s);
  }

  /** Writing under a text writes under its key and nowhere else. */
  lemma NamedUpdate<V(!new)>(n: Names, store: map<MetaKey, V>, named: map<string, V>, k: MetaKey, v: V)
    requires NamesLawful(n) && Represents(n, store, named) && KeyPrints(k)
    ensures SerializeKey(n, k).Some?
    ensures Represents(n, store[k := v], named[SerializeKey(n, k).value := v])
  {
    KeyRoundTrip(n, k);
    var text := SerializeKey(n, k).value;
    var store', named' := store[k := v], named[text := v];
    forall j | j in store' ensures KeyNamed(n, store', named', j) {
      if j != k { OthersNamed(n, store, named, k, j); }
    }
    forall s | s in named' ensures NameStands(n, store', s) {
      if s != text { OthersStand(n, store, named, k, s); }
    }
  }

  /** Erasing a text erases its key and nothing else. */
  lemma NamedRemove<V(!new)>(n: Names, store: map<MetaKey, V>, named: map<string, V>, k: MetaKey)
    requires NamesLawful(n) && Represents(n, store, named) && KeyPrints(k)
    ensures SerializeKey(n, k).Some?
    ensures Represents(n, store - {k}, named - {SerializeKey(n, k).value})
  {
    KeyRoundTrip(n, k);
    var text := SerializeKey(n, k).value;
    var store', named' := store - {k}, named - {text};
    forall j | j in store' ensures KeyNamed(n, store', named', j) {
      OthersNamed(n, store, named, k, j);
    }
    forall s | s in named' ensures NameStands(n, store', s) {
      OthersStand(n, store, named, k, s);
    }
  }

  /** The object map holds, for each attribute, what its printed value parses to. */
  lemma StoredIsReparsed(c: Context, vt: ValueType, v: Value)
    requires ContextLawful(c) && Supported(vt) && WellTyped(vt, v)
    ensures Serialize(c, vt, v).Some? <==> Storable(v)
    ensures Storable(v) ==> Deserialize(c, vt, Serialize(c, vt, v).value) == Some(Canon(v))
  {
    ValueRoundTrip(c, vt, v);
  }
}
