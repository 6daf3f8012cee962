/** The text under which an object's key attributes are indexed: two objects of one type
    that have the same key attributes get the same text exactly when each of those
    attributes has the same value. */
module MetaKeys {
  import opened Sai
  import opened MetaState
  import opened NumberText

  /** The value types a key attribute may have. */
  predicate KeyTyped(vt: ValueType) {
    vt in {PlainT(NumberT(S32)), PlainT(NumberT(U32)), PlainT(NumberT(U8)), PlainT(NumberT(U16)),
           PlainT(OidT), PlainT(NumberListT(U32))}
  }

  /** Equal values; a null list is an empty one. */
  predicate SameValue(v: Value, w: Value) {
    match (v.data, w.data)
    case (NumberV(a), NumberV(b)) => a == b
    case (OidV(a), OidV(b)) => a == b
    case (NumberListV(a), NumberListV(b)) => a.Elements() == b.Elements()
    case _ => false
  }

  // ------------------------------------------------------------- one attribute

  lemma {:induction false} DigitsPlain(n: nat, base: Base)
    ensures ',' !in Digits(n, base) && ';' !in Digits(n, base) && '-' !in Digits(n, base)
  {
    assert All(Digits(n, base), IsLowerHex);
  }

  lemma DecimalPlain(n: int)
    ensures ',' !in Decimal(n) && ';' !in Decimal(n) && Decimal(n) != ""
  {
    assert All(Decimal(n), IsNumberChar);
  }

  lemma LastSeparator(a: string, b: string, sep: char)
    requires sep !in b
    ensures var s := a + [sep] + b;
            s[|a|] == sep && (forall j :: |a| < j < |s| ==> s[j] != sep) && s[..|a|] == a && s[|a| + 1..] == b
  {
    var s := a + [sep] + b;
    forall j | |a| < j < |s| ensures s[j] != sep {
      assert s[j] == b[j - |a| - 1] && s[j] in b;
    }
  }

  lemma FirstSeparator(a: string, b: string, sep: char)
    requires sep !in a
    ensures var s := a + [sep] + b;
            s[|a|] == sep && (forall j :: 0 <= j < |a| ==> s[j] != sep) && s[..|a|] == a && s[|a| + 1..] == b
  {
    var s := a + [sep] + b;
    forall j | 0 <= j < |a| ensures s[j] != sep {
      assert s[j] == a[j] && s[j] in a;
    }
  }

  /** Texts around their last separator */
  lemma SplitLast(a: string, b: string, c: string, d: string, sep: char)
    requires sep !in b && sep !in d && a + [sep] + b == c + [sep] + d
    ensures a == c && b == d
  {
    LastSeparator(a, b, sep);
    LastSeparator(c, d, sep);
  }

  /** Texts around their first separator */
  lemma SplitFirst(a: string, b: string, c: string, d: string, sep: char)
    requires sep !in a && sep !in c && a + [sep] + b == c + [sep] + d
    ensures a == c && b == d
  {
    FirstSeparator(a, b, sep);
    FirstSeparator(c, d, sep);
  }

  lemma {:induction false} JoinedPlain(numbers: seq<int>)
    ensures ';' !in Joined(numbers) && (',' in Joined(numbers) <==> |numbers| > 1)
    ensures Joined(numbers) == "" <==> numbers == []
  {
    if numbers != [] {
      DecimalPlain(numbers[|numbers| - 1]);
      JoinedPlain(numbers[..|numbers| - 1]);
      if |numbers| > 1 {
        assert "," == [','];
        assert ',' in Joined(numbers[..|numbers| - 1]) + "," ;
      }
    }
  }

  lemma JoinedLast(a: seq<int>, b: seq<int>)
    requires |a| > 1 && |b| > 1 && Joined(a) == Joined(b)
    ensures Joined(a[..|a| - 1]) == Joined(b[..|b| - 1]) && a[|a| - 1] == b[|b| - 1]
  {
    var x, y := a[|a| - 1], b[|b| - 1];
    DecimalPlain(x);
    DecimalPlain(y);
    assert "," == [','];
    SplitLast(Joined(a[..|a| - 1]), Decimal(x), Joined(b[..|b| - 1]), Decimal(y), ',');
    DecimalInjective(x, y);
  }

  /** Joined numbers tell the list. */
  lemma {:induction false} JoinedInjective(a: seq<int>, b: seq<int>)
    requires Joined(a) == Joined(b)
    ensures a == b
    decreases |a|
  {
    JoinedPlain(a);
    JoinedPlain(b);
    if |a| > 1 {
      JoinedLast(a, b);
      JoinedInjective(a[..|a| - 1], b[..|b| - 1]);
      assert a == a[..|a| - 1] + [a[|a| - 1]] && b == b[..|b| - 1] + [b[|b| - 1]];
    } else if |a| == 1 {
      JoinedSingle(a);
      JoinedSingle(b);
      DecimalInjective(a[0], b[0]);
    }
  }

  lemma JoinedSingle(a: seq<int>)
    requires |a| == 1
    ensures Joined(a) == Decimal(a[0])
  {
  }

  lemma DecimalTells(a: int, b: int)
    ensures Decimal(a) == Decimal(b) <==> a == b
  {
    if Decimal(a) == Decimal(b) {
      DecimalInjective(a, b);
    }
  }

  lemma HexInjective(a: nat, b: nat)
    ensures Hex(a) == Hex(b) <==> a == b
  {
    DigitsValue(a, 16);
    DigitsValue(b, 16);
    assert Hex(a)[2..] == Digits(a, 16) && Hex(b)[2..] == Digits(b, 16);
  }

  /** The part an attribute adds tells its value. */
  lemma PartTells(md: AttrMeta, v: Value, w: Value)
    requires KeyTyped(md.valueType) && WellTyped(md.valueType, v) && WellTyped(md.valueType, w)
    ensures KeyPart(md, v) == KeyPart(md, w) <==> SameValue(v, w)
    ensures ';' !in md.name ==> ';' !in KeyPart(md, v)
  {
    PartHead(md, v);
    PartHead(md, w);
    BodyTells(md, v, w);
  }

  function Body(v: Value): string {
    match v.data
    case NumberV(n) => Decimal(n)
    case OidV(oid) => "oid:" + Hex(oid)
    case NumberListV(numbers) => Joined(numbers.Elements())
    case _ => ""
  }

  lemma PartHead(md: AttrMeta, v: Value)
    ensures KeyPart(md, v) == md.name + ":" + Body(v)
    ensures Body(v) == KeyPart(md, v)[|md.name| + 1..]
  {
  }

  lemma BodyTells(md: AttrMeta, v: Value, w: Value)
    requires KeyTyped(md.valueType) && WellTyped(md.valueType, v) && WellTyped(md.valueType, w)
    ensures Body(v) == Body(w) <==> SameValue(v, w)
    ensures ';' !in Body(v)
  {
    match v.data
    case NumberV(n) =>
      DecimalTells(n, w.data.n);
      DecimalPlain(n);
    case OidV(oid) =>
      HexInjective(oid, w.data.oid);
      DigitsPlain(oid, 16);
      assert Body(v)[4..] == Hex(oid) && Body(w)[4..] == Hex(w.data.oid);
    case NumberListV(numbers) =>
      if Body(v) == Body(w) {
        JoinedInjective(numbers.Elements(), w.data.numbers.Elements());
      }
      JoinedPlain(numbers.Elements());
  }

  // -------------------------------------------------------------- whole texts

  lemma {:induction false} PartsTell(p: map<AttrId, string>, q: map<AttrId, string>)
    requires p.Keys == q.Keys && forall id <- p :: ';' !in p[id] && ';' !in q[id]
    ensures JoinParts(p) == JoinParts(q) <==> p == q
    decreases |p|
  {
    if p == map[] {
      assert q == map[];
    } else {
      assert q != map[];
      var id := Min(p.Keys);
      assert Min(q.Keys) == id;
      var p', q' := p - {id}, q - {id};
      assert JoinParts(p) == p[id] + ";" + JoinParts(p') && JoinParts(q) == q[id] + ";" + JoinParts(q');
      PartsTell(p', q');
      if JoinParts(p) == JoinParts(q) {
        assert ";" == [';'];
        SplitFirst(p[id], JoinParts(p'), q[id], JoinParts(q'), ';');
        assert p == p'[id := p[id]] && q == q'[id := q[id]];
      }
    }
  }

  /** Attribute names are identifiers; all that matters is that none has a semicolon. */
  ghost predicate NamesPlain(m: Meta, t: ObjectType) {
    forall id :: m.Has(t, id) && m.Of(t, id).key ==> ';' !in m.Of(t, id).name
  }

  /** The key attributes of a set of attributes */
  function KeyIds(m: Meta, t: ObjectType, a: Attrs): set<AttrId> {
    set id | id in a && m.Has(t, id) && m.Of(t, id).key
  }

  ghost predicate WellKeyed(m: Meta, t: ObjectType, a: Attrs) {
    forall id <- KeyIds(m, t, a) :: KeyTyped(m.Of(t, id).valueType) && WellTyped(m.Of(t, id).valueType, a[id])
  }

  /** Same text, same keys: what the uniqueness check of create compares. */
  lemma KeyTextTells(m: Meta, t: ObjectType, a: Attrs, b: Attrs)
    requires NamesPlain(m, t) && WellKeyed(m, t, a) && WellKeyed(m, t, b)
    requires KeyIds(m, t, a) == KeyIds(m, t, b)
    ensures KeyText(m, t, a) == KeyText(m, t, b) <==>
              forall id <- KeyIds(m, t, a) :: SameValue(a[id], b[id])
  {
    var p, q := KeyParts(m, t, a), KeyParts(m, t, b);
    assert p.Keys == KeyIds(m, t, a) && q.Keys == KeyIds(m, t, b);
    forall id | id in p
      ensures (p[id] == q[id] <==> SameValue(a[id], b[id])) && ';' !in p[id] && ';' !in q[id]
    {
      assert id in KeyIds(m, t, a) && id in KeyIds(m, t, b);
      PartTells(m.Of(t, id), a[id], b[id]);
      PartTells(m.Of(t, id), b[id], a[id]);
    }
    PartsTell(p, q);
  }
}
