/** Replaying a recording (saiplayer.cpp): object ids of the recording are paired with the
    ids the switch hands out now, and recorded attributes are translated before use. */
module Replay {
  import opened Sai

  /** `local_to_redis` and `redis_to_local` */
  datatype Maps = Maps(toRedis: map<Oid, Oid>, toLocal: map<Oid, Oid>)

  /** An id got from the switch and the recorded id in the same place. */
  datatype Pair = Pair(got: Oid, recorded: Oid)

  // ------------------------------------------------------------------ matching

  function MatchOne(s: Maps, p: Pair): Maps {
    if p.got in s.toLocal then s
    else Maps(s.toRedis[p.recorded := p.got], s.toLocal[p.got := p.recorded])
  }

  predicate Agrees(s: Maps, p: Pair) { p.got in s.toLocal ==> s.toLocal[p.got] == p.recorded }

  /** Pairs are matched in order until one disagrees, which throws. */
  function MatchPairs(s: Maps, pairs: seq<Pair>): (Maps, bool)
    decreases |pairs|
  {
    if pairs == [] then (s, true)
    else if !Agrees(s, pairs[0]) then (s, false)
    else MatchPairs(MatchOne(s, pairs[0]), pairs[1..])
  }

  function Zip(got: seq<Oid>, recorded: seq<Oid>): seq<Pair>
    requires |got| == |recorded|
  {
    seq(|got|, i requires 0 <= i < |got| == |recorded| => Pair(got[i], recorded[i]))
  }

  /** How many oids the loop over the side got from the switch visits. */
  function OidCount(d: Data): nat {
    match d
    case OidV(_) => 1
    case OidListV(oids) => oids.Count()
    case _ => 0
  }

  /** The loop stays within the oids of both sides. Fields and actions are visited only
      when the recorded one is enabled. */
  predicate Pairable(got: Value, recorded: Value) {
    Enabled(recorded) ==> OidCount(got.data) == |DataRefs(got.data)| == |DataRefs(recorded.data)|
  }

  /** The oids of the two sides of one attribute, in order. */
  function PairsOf(got: Value, recorded: Value): seq<Pair>
    requires Pairable(got, recorded)
  {
    if Enabled(recorded) then Zip(DataRefs(got.data), DataRefs(recorded.data)) else []
  }

  /** Metadata is known for the attribute, and if it names allowed object types its value
      type is one that holds object ids; anything else throws. */
  predicate Known(m: Meta, t: ObjectType, a: Attribute) {
    m.Has(t, a.id) && (IsOidType(m.Of(t, a.id).valueType) || m.Of(t, a.id).allowed == {})
  }

  predicate HoldsOids(m: Meta, t: ObjectType, a: Attribute) {
    m.Has(t, a.id) && IsOidType(m.Of(t, a.id).valueType)
  }

  /** `match_list_lengths` has compared the two sides. */
  predicate Comparable(m: Meta, t: ObjectType, got: Attribute, recorded: Attribute) {
    HoldsOids(m, t, recorded) ==> Pairable(got.value, recorded.value)
  }

  predicate ComparableLists(m: Meta, t: ObjectType, got: seq<Attribute>, recorded: seq<Attribute>) {
    |got| == |recorded| && forall i :: 0 <= i < |got| ==> Comparable(m, t, got[i], recorded[i])
  }

  /** One turn of the attribute loop */
  function MatchAttr(m: Meta, t: ObjectType, s: Maps, got: Attribute, recorded: Attribute): (Maps, bool)
    requires Comparable(m, t, got, recorded)
  {
    if !Known(m, t, recorded) then (s, false)
    else if HoldsOids(m, t, recorded) then MatchPairs(s, PairsOf(got.value, recorded.value))
    else (s, true)
  }

  function MatchAttrsUpTo(m: Meta, t: ObjectType, s: Maps, got: seq<Attribute>, recorded: seq<Attribute>,
                          n: nat): (Maps, bool)
    requires ComparableLists(m, t, got, recorded) && n <= |got|
  {
    if n == 0 then (s, true)
    else
      var r := MatchAttrsUpTo(m, t, s, got, recorded, n - 1);
      if r.1 then MatchAttr(m, t, r.0, got[n - 1], recorded[n - 1]) else r
  }

  // --------------------------------------------------------------- translation

  function TranslateOne(toRedis: map<Oid, Oid>, oid: Oid): Option<Oid> {
    if oid == NULL_OID then Some(NULL_OID)
    else if oid in toRedis then Some(toRedis[oid])
    else None
  }

  predicate Translatable(toRedis: map<Oid, Oid>, oids: seq<Oid>) {
    forall o <- oids :: TranslateOne(toRedis, o).Some?
  }

  /** Place by place: null stays null, and any other oid becomes one that maps back to it. */
  ghost predicate Mirrors(s: Maps, original: seq<Oid>, translated: seq<Oid>) {
    && |translated| == |original|
    && forall i :: 0 <= i < |original| ==>
         if original[i] == NULL_OID then translated[i] == NULL_OID
         else translated[i] in s.toLocal && s.toLocal[translated[i]] == original[i]
  }

  /** The value with other oids in the places of its own. */
  function WithRefs(v: Value, oids: seq<Oid>): Value
    requires |oids| == |Refs(v)|
  {
    if Refs(v) == [] then v
    else
      var d := match v.data
        case OidV(_) => OidV(oids[0])
        case OidListV(_) => OidListV(Items(oids))
        case d => d;
      match v
      case Plain(_) => Plain(d)
      case Field(enable, _, mask) => Field(enable, d, mask)
      case Action(enable, _) => Action(enable, d)
  }

  class Replayer {
    var toRedis: map<Oid, Oid>
    var toLocal: map<Oid, Oid>

    ghost function State(): Maps
      reads this
    {
      Maps(toRedis, toLocal)
    }

    constructor ()
      ensures State() == Maps(map[], map[])
    {
      toRedis, toLocal := map[], map[];
    }

    /** `match_redis_with_rec` of two oids; false is the exception. */
    method Match(got: Oid, recorded: Oid) returns (ok: bool)
      modifies this
      ensures ok == Agrees(old(State()), Pair(got, recorded))
      ensures State() == MatchOne(old(State()), Pair(got, recorded))
    {
      if got !in toLocal {
        toLocal := toLocal[got := recorded];
        toRedis := toRedis[recorded := got];
      }
      ok := recorded == toLocal[got];
    }

    /** `match_redis_with_rec` of two lists */
    method MatchList(got: seq<Oid>, recorded: seq<Oid>) returns (ok: bool)
      requires |got| == |recorded|
      modifies this
      ensures (State(), ok) == MatchPairs(old(State()), Zip(got, recorded))
    {
      var i := 0;
      ghost var pairs := Zip(got, recorded);
      assert pairs[0..] == pairs;
      while i < |got|
        invariant 0 <= i <= |got|
        invariant MatchPairs(State(), pairs[i..]) == MatchPairs(old(State()), pairs)
      {
        assert pairs[i..][0] == Pair(got[i], recorded[i]) && pairs[i..][1..] == pairs[i + 1..];
        ok := Match(got[i], recorded[i]);
        if !ok {
          return;
        }
        i := i + 1;
      }
      ok := true;
    }

    /** `match_redis_with_rec` of two attribute lists */
    method MatchAttrs(m: Meta, t: ObjectType, got: seq<Attribute>, recorded: seq<Attribute>) returns (ok: bool)
      requires |got| == |recorded| ==> ComparableLists(m, t, got, recorded)
      modifies this
      ensures if |got| != |recorded| then !ok && State() == old(State())
              else (State(), ok) == MatchAttrsUpTo(m, t, old(State()), got, recorded, |got|)
    {
      if |got| != |recorded| {
        return false;
      }
      var i := 0;
      while i < |recorded|
        invariant 0 <= i <= |recorded|
        invariant MatchAttrsUpTo(m, t, old(State()), got, recorded, i) == (State(), true)
      {
        assert Comparable(m, t, got[i], recorded[i]);
        ok := MatchNext(m, t, got[i], recorded[i]);
        if !ok {
          MatchStops(m, t, old(State()), got, recorded, i + 1);
          return;
        }
        i := i + 1;
      }
      ok := true;
    }

    method MatchNext(m: Meta, t: ObjectType, got: Attribute, recorded: Attribute) returns (ok: bool)
      requires Comparable(m, t, got, recorded)
      modifies this
      ensures (State(), ok) == MatchAttr(m, t, old(State()), got, recorded)
    {
      if !m.Has(t, recorded.id) {
        return false;
      }
      if !IsOidType(m.Of(t, recorded.id).valueType) {
        return m.Of(t, recorded.id).allowed == {};
      }
      if !Enabled(recorded.value) {
        return true;
      }
      ok := MatchList(DataRefs(got.value.data), DataRefs(recorded.value.data));
    }

    /** `translate_local_to_redis` of one oid; None is the exception. */
    method Translate(oid: Oid) returns (r: Option<Oid>)
      ensures r == TranslateOne(toRedis, oid)
    {
      if oid == NULL_OID {
        return Some(NULL_OID);
      }
      if oid !in toRedis {
        return None;
      }
      r := Some(toRedis[oid]);
    }

    /** `translate_local_to_redis` of a list, in place: the oids before place `n` are
        translated and the others left, all of them when the list translates and up to the
        first unknown one, which throws, when it does not. */
    method TranslateList(list: array<Oid>) returns (ok: bool, ghost n: nat)
      modifies list
      ensures ok <==> Translatable(toRedis, old(list[..]))
      ensures TranslatedUpTo(toRedis, old(list[..]), list[..], n)
      ensures if ok then n == list.Length
              else n < list.Length && TranslateOne(toRedis, old(list[n])).None?
    {
      var i := 0;
      while i < list.Length
        invariant 0 <= i <= list.Length
        invariant forall j :: 0 <= j < i ==> TranslateOne(toRedis, old(list[j])) == Some(list[j])
        invariant forall j :: i <= j < list.Length ==> list[j] == old(list[j])
      {
        var r := Translate(list[i]);
        if r.None? {
          assert old(list[..])[i] in old(list[..]);
          return false, i;
        }
        list[i] := r.value;
        i := i + 1;
      }
      return true, i;
    }

    /** `translate_local_to_redis` of one attribute value; what a throw leaves of it too. */
    method TranslateValue(v: Value) returns (ok: bool, w: Value)
      ensures ok <==> Translatable(toRedis, Refs(v))
      ensures if ok then TranslatedValue(toRedis, v, w) else StoppedValue(toRedis, v, w)
    {
      var refs := Refs(v);
      var list := new Oid[|refs|](i requires 0 <= i < |refs| => refs[i]);
      assert list[..] == refs;
      ghost var n;
      ok, n := TranslateList(list);
      w := WithRefs(v, list[..]);
      if ok {
        assert TranslatedBy(toRedis, v, w, list[..]);
      } else {
        assert StoppedBy(toRedis, v, w, list[..], n);
      }
    }

    /** `translate_local_to_redis` of an attribute list, in place: the attributes before
        place `n` are translated, and where one throws those after it are left and it is
        translated up to its first unknown oid. */
    method TranslateAttrs(m: Meta, t: ObjectType, attrs: array<Attribute>) returns (ok: bool, ghost n: nat)
      requires forall i :: 0 <= i < attrs.Length ==> OidsTyped(m, t, attrs[i])
      modifies attrs
      ensures ok <==> forall i :: 0 <= i < attrs.Length ==> Accepted(m, t, toRedis, old(attrs[i]))
      ensures n <= attrs.Length && (ok <==> n == attrs.Length)
      ensures forall i :: 0 <= i < n ==> TranslatedAttr(toRedis, old(attrs[i]), attrs[i])
      ensures forall i :: n < i < attrs.Length ==> attrs[i] == old(attrs[i])
      ensures n < attrs.Length ==> StoppedAttr(m, t, toRedis, old(attrs[n]), attrs[n])
    {
      var i := 0;
      while i < attrs.Length
        invariant 0 <= i <= attrs.Length
        invariant forall j :: 0 <= j < i ==> Accepted(m, t, toRedis, old(attrs[j]))
        invariant forall j :: 0 <= j < i ==> TranslatedAttr(toRedis, old(attrs[j]), attrs[j])
        invariant forall j :: i <= j < attrs.Length ==> attrs[j] == old(attrs[j])
      {
        assert OidsTyped(m, t, attrs[i]);
        if !Known(m, t, attrs[i]) {
          return false, i;
        }
        if HoldsOids(m, t, attrs[i]) {
          var w;
          ok, w := TranslateValue(attrs[i].value);
          attrs[i] := Attribute(attrs[i].id, w);
          if !ok {
            return false, i;
          }
        } else {
          Untouched(toRedis, attrs[i]);
        }
        i := i + 1;
      }
      return true, i;
    }
  }

  /** Only attributes of oid types hold object ids. */
  predicate OidsTyped(m: Meta, t: ObjectType, a: Attribute) {
    m.Has(t, a.id) && !IsOidType(m.Of(t, a.id).valueType) ==> Refs(a.value) == []
  }

  /** Translation does not throw. */
  predicate Accepted(m: Meta, t: ObjectType, toRedis: map<Oid, Oid>, a: Attribute) {
    Known(m, t, a) && Translatable(toRedis, Refs(a.value))
  }

  lemma Untouched(toRedis: map<Oid, Oid>, a: Attribute)
    requires Refs(a.value) == []
    ensures TranslatedAttr(toRedis, a, a)
  {
    assert TranslatedBy(toRedis, a.value, a.value, []);
  }

  /** `w` is `v` with its oids replaced by their translations `oids`. */
  ghost predicate TranslatedBy(toRedis: map<Oid, Oid>, v: Value, w: Value, oids: seq<Oid>) {
    && |oids| == |Refs(v)| && w == WithRefs(v, oids)
    && forall i :: 0 <= i < |oids| ==> TranslateOne(toRedis, Refs(v)[i]) == Some(oids[i])
  }

  ghost predicate TranslatedValue(toRedis: map<Oid, Oid>, v: Value, w: Value) {
    exists oids: seq<Oid> :: TranslatedBy(toRedis, v, w, oids)
  }

  ghost predicate TranslatedAttr(toRedis: map<Oid, Oid>, a: Attribute, b: Attribute) {
    a.id == b.id && TranslatedValue(toRedis, a.value, b.value)
  }

  /** The oids before place `n` are translated, the others untouched. */
  predicate TranslatedUpTo(toRedis: map<Oid, Oid>, was: seq<Oid>, now: seq<Oid>, n: nat) {
    && n <= |was| == |now|
    && (forall j :: 0 <= j < n ==> TranslateOne(toRedis, was[j]) == Some(now[j]))
    && (forall j :: n <= j < |was| ==> now[j] == was[j])
  }

  /** What a throw at oid `n` of `v` leaves of it. */
  ghost predicate StoppedBy(toRedis: map<Oid, Oid>, v: Value, w: Value, oids: seq<Oid>, n: nat) {
    && n < |Refs(v)| == |oids| && TranslateOne(toRedis, Refs(v)[n]).None?
    && TranslatedUpTo(toRedis, Refs(v), oids, n) && w == WithRefs(v, oids)
  }

  ghost predicate StoppedValue(toRedis: map<Oid, Oid>, v: Value, w: Value) {
    exists oids: seq<Oid>, n: nat :: StoppedBy(toRedis, v, w, oids, n)
  }

  ghost predicate StoppedAttr(m: Meta, t: ObjectType, toRedis: map<Oid, Oid>, a: Attribute, b: Attribute) {
    if Known(m, t, a) then a.id == b.id && StoppedValue(toRedis, a.value, b.value) else b == a
  }

  lemma {:induction false} MatchAppend(s: Maps, a: seq<Pair>, b: seq<Pair>)
    ensures MatchPairs(s, a + b) == if MatchPairs(s, a).1 then MatchPairs(MatchPairs(s, a).0, b) else MatchPairs(s, a)
    decreases |a|
  {
    if a == [] {
      assert a + b == b;
    } else {
      assert (a + b)[1..] == a[1..] + b;
      if Agrees(s, a[0]) {
        MatchAppend(MatchOne(s, a[0]), a[1..], b);
      }
    }
  }

  lemma {:induction false} MatchStops(m: Meta, t: ObjectType, s: Maps, got: seq<Attribute>,
                                      recorded: seq<Attribute>, n: nat)
    requires ComparableLists(m, t, got, recorded) && n <= |got|
    requires !MatchAttrsUpTo(m, t, s, got, recorded, n).1
    ensures MatchAttrsUpTo(m, t, s, got, recorded, |got|) == MatchAttrsUpTo(m, t, s, got, recorded, n)
    decreases |got| - n
  {
    if n < |got| {
      MatchStops(m, t, s, got, recorded, n + 1);
    }
  }

  /** The pairs of one attribute; one that holds no oids has none. */
  function AttrPairs(m: Meta, t: ObjectType, got: Attribute, recorded: Attribute): seq<Pair>
    requires Comparable(m, t, got, recorded)
  {
    if HoldsOids(m, t, recorded) then PairsOf(got.value, recorded.value) else []
  }

  /** The pairs of an attribute of oid type pair the single oids, or the elements of the two
      lists place by place, when the recorded value is plain or enabled. */
  lemma PairsPlaced(m: Meta, t: ObjectType, got: Attribute, recorded: Attribute, j: nat)
    requires Comparable(m, t, got, recorded)
    requires m.Has(t, recorded.id) && m.Of(t, recorded.id).valueType in
               {PlainT(OidT), PlainT(OidListT), FieldT(OidT), FieldT(OidListT), ActionT(OidT), ActionT(OidListT)}
    requires recorded.value.Plain? || recorded.value.enable
    ensures match (got.value.data, recorded.value.data)
            case (OidV(a), OidV(b)) => AttrPairs(m, t, got, recorded) == [Pair(a, b)]
            case (OidListV(Items(a)), OidListV(Items(b))) =>
              && |AttrPairs(m, t, got, recorded)| == |a| == |b|
              && (j < |a| ==> AttrPairs(m, t, got, recorded)[j] == Pair(a[j], b[j]))
            case _ => true
  {
  }

  /** An attribute throws for its metadata exactly when it has none, or names object types
      without being of an oid type; of another type it has no pairs. */
  lemma KnownExactly(m: Meta, t: ObjectType, a: Attribute)
    ensures Known(m, t, a) <==>
              && m.Has(t, a.id)
              && (m.Of(t, a.id).allowed == {}
                  || m.Of(t, a.id).valueType in {PlainT(OidT), PlainT(OidListT), FieldT(OidT), FieldT(OidListT),
                                                 ActionT(OidT), ActionT(OidListT)})
  {
    if m.Has(t, a.id) {
      var vt := m.Of(t, a.id).valueType;
      assert vt.t.OidT? ==> vt == (match vt case PlainT(_) => PlainT(OidT) case FieldT(_) => FieldT(OidT)
                                            case ActionT(_) => ActionT(OidT));
      assert vt.t.OidListT? ==> vt == (match vt case PlainT(_) => PlainT(OidListT) case FieldT(_) => FieldT(OidListT)
                                                case ActionT(_) => ActionT(OidListT));
    }
  }

  /** The pairs of the first `n` attributes, in order */
  function PairsUpTo(m: Meta, t: ObjectType, got: seq<Attribute>, recorded: seq<Attribute>, n: nat): seq<Pair>
    requires ComparableLists(m, t, got, recorded) && n <= |got|
  {
    if n == 0 then []
    else
      assert Comparable(m, t, got[n - 1], recorded[n - 1]);
      PairsUpTo(m, t, got, recorded, n - 1) + AttrPairs(m, t, got[n - 1], recorded[n - 1])
  }

  /** The attributes of the first `n` before the first one that throws for its metadata */
  function KnownUpTo(m: Meta, t: ObjectType, recorded: seq<Attribute>, n: nat): (k: nat)
    requires n <= |recorded|
    ensures k <= n && (forall i :: 0 <= i < k ==> Known(m, t, recorded[i]))
    ensures k < n ==> !Known(m, t, recorded[k])
  {
    if n == 0 then 0
    else
      var k := KnownUpTo(m, t, recorded, n - 1);
      if k == n - 1 && Known(m, t, recorded[n - 1]) then n else k
  }

  /** Matching the pairs of the first `n` attributes, up to the first attribute that throws
      for its metadata */
  function MatchKnown(m: Meta, t: ObjectType, s: Maps, got: seq<Attribute>, recorded: seq<Attribute>,
                      n: nat): (Maps, bool)
    requires ComparableLists(m, t, got, recorded) && n <= |got|
  {
    var known := KnownUpTo(m, t, recorded, n);
    var matched := MatchPairs(s, PairsUpTo(m, t, got, recorded, known));
    (matched.0, known == n && matched.1)
  }

  /** Matching two attribute lists is matching the pairs they hold, in order, up to the
      first attribute that throws for its metadata, and succeeds exactly when there is no
      such attribute and the pairs match. */
  lemma {:induction false} MatchedPairs(m: Meta, t: ObjectType, s: Maps, got: seq<Attribute>,
                                        recorded: seq<Attribute>, n: nat)
    requires ComparableLists(m, t, got, recorded) && n <= |got|
    ensures MatchAttrsUpTo(m, t, s, got, recorded, n) == MatchKnown(m, t, s, got, recorded, n)
  {
    if n > 0 {
      MatchedPairs(m, t, s, got, recorded, n - 1);
      assert Comparable(m, t, got[n - 1], recorded[n - 1]);
      MatchedAttr(m, t, MatchKnown(m, t, s, got, recorded, n - 1).0, got[n - 1], recorded[n - 1]);
      KnownNext(m, t, s, got, recorded, n);
    }
  }

  lemma KnownNext(m: Meta, t: ObjectType, s: Maps, got: seq<Attribute>, recorded: seq<Attribute>, n: nat)
    requires ComparableLists(m, t, got, recorded) && 0 < n <= |got|
    requires Comparable(m, t, got[n - 1], recorded[n - 1])
    ensures var r := MatchKnown(m, t, s, got, recorded, n - 1);
            MatchKnown(m, t, s, got, recorded, n)
              == if !r.1 then r
                 else if Known(m, t, recorded[n - 1])
                 then MatchPairs(r.0, AttrPairs(m, t, got[n - 1], recorded[n - 1]))
                 else (r.0, false)
  {
    if KnownUpTo(m, t, recorded, n) == n {
      MatchAppend(s, PairsUpTo(m, t, got, recorded, n - 1), AttrPairs(m, t, got[n - 1], recorded[n - 1]));
    }
  }

  lemma MatchedAttr(m: Meta, t: ObjectType, s: Maps, got: Attribute, recorded: Attribute)
    requires Comparable(m, t, got, recorded)
    ensures MatchAttr(m, t, s, got, recorded)
         == if Known(m, t, recorded) then MatchPairs(s, AttrPairs(m, t, got, recorded)) else (s, false)
  {
  }

  // ------------------------------------------------------------- every replay

  /** Each call of the replay matches some pairs; the last may have stopped midway. */
  function Run(s: Maps, calls: seq<seq<Pair>>): Maps
    decreases |calls|
  {
    if calls == [] then s else Run(MatchPairs(s, calls[0]).0, calls[1..])
  }

  predicate RightInverse(s: Maps) {
    && (forall l <- s.toRedis :: s.toRedis[l] in s.toLocal && s.toLocal[s.toRedis[l]] == l)
    && (forall r <- s.toLocal :: s.toLocal[r] in s.toRedis)
  }

  /** `toLocal` only grows. */
  predicate Keeps(s: Maps, s': Maps) {
    s.toLocal.Keys <= s'.toLocal.Keys && forall k <- s.toLocal :: s'.toLocal[k] == s.toLocal[k]
  }

  lemma {:induction false} MatchKeeps(s: Maps, pairs: seq<Pair>)
    requires RightInverse(s)
    ensures RightInverse(MatchPairs(s, pairs).0) && Keeps(s, MatchPairs(s, pairs).0)
    decreases |pairs|
  {
    if pairs != [] && Agrees(s, pairs[0]) {
      MatchKeeps(MatchOne(s, pairs[0]), pairs[1..]);
    }
  }

  lemma {:induction false} RunKeeps(s: Maps, calls: seq<seq<Pair>>)
    requires RightInverse(s)
    ensures RightInverse(Run(s, calls)) && Keeps(s, Run(s, calls))
    decreases |calls|
  {
    if calls != [] {
      MatchKeeps(s, calls[0]);
      RunKeeps(MatchPairs(s, calls[0]).0, calls[1..]);
    }
  }

  const NOTHING: Maps := Maps(map[], map[])

  /** Over every replay `redis_to_local` is write-once, and it undoes `local_to_redis`. */
  lemma ReplayRightInverse(before: seq<seq<Pair>>, after: seq<seq<Pair>>, k: Oid, l: Oid)
    ensures var s, s' := Run(NOTHING, before), Run(Run(NOTHING, before), after);
            && (k in s.toLocal ==> k in s'.toLocal && s'.toLocal[k] == s.toLocal[k])
            && (l in s.toRedis ==> s.toRedis[l] in s.toLocal && s.toLocal[s.toRedis[l]] == l)
  {
    RunKeeps(NOTHING, before);
    RunKeeps(Run(NOTHING, before), after);
  }

  predicate Injective(toLocal: map<Oid, Oid>) {
    forall p, q :: p in toLocal && q in toLocal && toLocal[p] == toLocal[q] ==> p == q
  }

  /** The maps are not inverse to each other both ways: `local_to_redis` forgets an id when
      its recorded id is paired again. They are exactly when no recorded id was. */
  lemma InverseBothWays(calls: seq<seq<Pair>>)
    ensures var s := Run(NOTHING, calls);
            (forall r <- s.toLocal :: s.toLocal[r] in s.toRedis && s.toRedis[s.toLocal[r]] == r)
              <==> Injective(s.toLocal)
  {
    RunKeeps(NOTHING, calls);
    var s := Run(NOTHING, calls);
    if Injective(s.toLocal) {
      forall r | r in s.toLocal ensures s.toLocal[r] in s.toRedis && s.toRedis[s.toLocal[r]] == r {
        assert s.toLocal[r] in s.toRedis;
      }
    }
  }

  lemma MatchSingle(s: Maps, p: Pair)
    requires Agrees(s, p)
    ensures MatchPairs(s, [p]) == (MatchOne(s, p), true)
  {
    assert [p][1..] == [];
    assert MatchPairs(MatchOne(s, p), [p][1..]) == (MatchOne(s, p), true);
  }

  /** Such a replay: two ids got now for one recorded id. */
  lemma PairedAgain(a: Oid, b: Oid, recorded: Oid)
    requires a != b
    ensures var s := Run(NOTHING, [[Pair(a, recorded)], [Pair(b, recorded)]]);
            s.toLocal == map[a := recorded, b := recorded] && s.toRedis == map[recorded := b]
  {
    var calls := [[Pair(a, recorded)], [Pair(b, recorded)]];
    var one := MatchOne(NOTHING, Pair(a, recorded));
    MatchSingle(NOTHING, Pair(a, recorded));
    MatchSingle(one, Pair(b, recorded));
    assert calls[1..][0] == [Pair(b, recorded)] && calls[1..][1..] == [];
    var two := MatchOne(one, Pair(b, recorded));
    assert Run(one, calls[1..]) == Run(two, []);
  }

  /** After any replay, an attribute list that translates maps back to itself: oid by oid,
      nothing but its oids changed. */
  lemma TranslationMirrors(calls: seq<seq<Pair>>, a: Attribute, b: Attribute)
    requires TranslatedAttr(Run(NOTHING, calls).toRedis, a, b)
    ensures Mirrors(Run(NOTHING, calls), Refs(a.value), Refs(b.value))
    ensures b == Attribute(a.id, WithRefs(a.value, Refs(b.value)))
  {
    var s := Run(NOTHING, calls);
    RunKeeps(NOTHING, calls);
    var oids: seq<Oid> :| TranslatedBy(s.toRedis, a.value, b.value, oids);
    RefsReplaced(a.value, oids);
    forall i | 0 <= i < |oids|
      ensures if Refs(a.value)[i] == NULL_OID then oids[i] == NULL_OID
              else oids[i] in s.toLocal && s.toLocal[oids[i]] == Refs(a.value)[i]
    {
      assert TranslateOne(s.toRedis, Refs(a.value)[i]) == Some(oids[i]);
    }
  }

  lemma RefsReplaced(v: Value, oids: seq<Oid>)
    requires |oids| == |Refs(v)|
    ensures Refs(WithRefs(v, oids)) == oids
  {
  }

  /** Pairs are consistent with each other and with what is known. */
  predicate Consistent(s: Maps, pairs: seq<Pair>) {
    && (forall p <- pairs :: Agrees(s, p))
    && (forall i, j :: 0 <= i < j < |pairs| && pairs[i].got == pairs[j].got ==>
          pairs[i].recorded == pairs[j].recorded)
  }

  /** Matching throws exactly when some id got now stands for two recorded ids. */
  lemma {:induction false} MatchSucceeds(s: Maps, pairs: seq<Pair>)
    ensures MatchPairs(s, pairs).1 <==> Consistent(s, pairs)
    ensures MatchPairs(s, pairs).1 ==> forall p <- pairs ::
              p.got in MatchPairs(s, pairs).0.toLocal && MatchPairs(s, pairs).0.toLocal[p.got] == p.recorded
    decreases |pairs|
  {
    if pairs != [] {
      assert pairs[0] in pairs && pairs == [pairs[0]] + pairs[1..];
      if Agrees(s, pairs[0]) {
        var next := MatchOne(s, pairs[0]);
        MatchSucceeds(next, pairs[1..]);
        ConsistentTail(s, pairs);
        MatchExtends(next, pairs[1..], pairs[0].got);
      }
    }
  }

  lemma ConsistentTail(s: Maps, pairs: seq<Pair>)
    requires pairs != [] && Agrees(s, pairs[0])
    ensures Consistent(s, pairs) <==> Consistent(MatchOne(s, pairs[0]), pairs[1..])
  {
    var next := MatchOne(s, pairs[0]);
    if Consistent(s, pairs) {
      forall p | p in pairs[1..] ensures Agrees(next, p) {
        var i :| 0 <= i < |pairs| - 1 && pairs[i + 1] == p;
        assert pairs[i + 1] in pairs;
      }
    }
    if Consistent(next, pairs[1..]) {
      forall p | p in pairs ensures Agrees(s, p) {
        if p != pairs[0] {
          assert p in pairs[1..] && Agrees(next, p);
        }
      }
      forall i, j | 0 <= i < j < |pairs| && pairs[i].got == pairs[j].got
        ensures pairs[i].recorded == pairs[j].recorded
      {
        assert pairs[j] == pairs[1..][j - 1] && pairs[j] in pairs[1..];
        if i > 0 {
          assert pairs[i] == pairs[1..][i - 1];
        }
      }
    }
  }

  lemma {:induction false} MatchExtends(s: Maps, pairs: seq<Pair>, k: Oid)
    requires k in s.toLocal
    ensures k in MatchPairs(s, pairs).0.toLocal && MatchPairs(s, pairs).0.toLocal[k] == s.toLocal[k]
    decreases |pairs|
  {
    if pairs != [] && Agrees(s, pairs[0]) {
      MatchExtends(MatchOne(s, pairs[0]), pairs[1..], k);
    }
  }

  // -------------------------------------------------------------- list lengths

  /** The counts `match_list_lengths` compares. */
  function CheckedCounts(vt: ValueType, v: Value): seq<nat>
    requires WellTyped(vt, v)
  {
    match vt
    case PlainT(OidListT) => [v.data.oids.Count()]
    case PlainT(NumberListT(k)) => if k in {U64, S64} then [] else [v.data.numbers.Count()]
    case PlainT(VlanListT) => [v.data.numbers.Count()]
    case PlainT(AddressListT) => [v.data.ips.Count()]
    case FieldT(OidListT) => [v.data.oids.Count()]
    case FieldT(NumberListT(k)) => if k == U8 then [v.data.numbers.Count(), v.mask.numbers.Count()] else []
    case ActionT(OidListT) => [v.data.oids.Count()]
    case _ => []
  }

  ghost predicate TypedAs(m: Meta, t: ObjectType, got: Attribute, recorded: Attribute) {
    m.Has(t, recorded.id) ==>
      var vt := m.Of(t, recorded.id).valueType;
      WellTyped(vt, got.value) && WellTyped(vt, recorded.value)
  }

  /** The recorded attribute is known and the counts of both sides agree. */
  ghost predicate LengthsAgree(m: Meta, t: ObjectType, got: Attribute, recorded: Attribute)
    requires TypedAs(m, t, got, recorded)
  {
    m.Has(t, recorded.id)
    && var vt := m.Of(t, recorded.id).valueType; CheckedCounts(vt, got.value) == CheckedCounts(vt, recorded.value)
  }

  /** The counts are those of object lists, of number lists of up to 32 bits, of VLAN and
      address lists, of the object lists of ACL fields and actions, and of the byte lists of
      ACL fields with their masks. */
  lemma CountsExactly(vt: ValueType, v: Value)
    requires WellTyped(vt, v)
    ensures CheckedCounts(vt, v) ==
      match v
      case Plain(OidListV(l)) => [l.Count()]
      case Plain(NumberListV(l)) =>
        if vt in {PlainT(NumberListT(U64)), PlainT(NumberListT(S64))} then [] else [l.Count()]
      case Plain(AddressListV(l)) => [l.Count()]
      case Field(_, OidListV(l), _) => [l.Count()]
      case Field(_, NumberListV(l), NumberListV(mask)) =>
        if vt == FieldT(NumberListT(U8)) then [l.Count(), mask.Count()] else []
      case Action(_, OidListV(l)) => [l.Count()]
      case _ => []
  {
  }

  /** `match_list_lengths`; false is the exception. */
  method MatchListLengths(m: Meta, t: ObjectType, got: seq<Attribute>, recorded: seq<Attribute>) returns (ok: bool)
    requires |got| == |recorded| ==> forall i :: 0 <= i < |got| ==> TypedAs(m, t, got[i], recorded[i])
    ensures ok <==> |got| == |recorded| && forall i :: 0 <= i < |got| ==>
              TypedAs(m, t, got[i], recorded[i]) && LengthsAgree(m, t, got[i], recorded[i])
  {
    if |got| != |recorded| {
      return false;
    }
    var i := 0;
    while i < |recorded|
      invariant 0 <= i <= |recorded|
      invariant forall j :: 0 <= j < i ==>
        TypedAs(m, t, got[j], recorded[j]) && LengthsAgree(m, t, got[j], recorded[j])
    {
      assert TypedAs(m, t, got[i], recorded[i]);
      if !m.Has(t, recorded[i].id) {
        return false;
      }
      var vt := m.Of(t, recorded[i].id).valueType;
      if CheckedCounts(vt, got[i].value) != CheckedCounts(vt, recorded[i].value) {
        return false;
      }
      i := i + 1;
    }
    ok := true;
  }

  /** A null list that claims elements. */
  predicate NullWithCount(d: Data) { d.OidListV? && d.oids.Null? && d.oids.count > 0 }

  /** Equal lengths make the oids of the two sides pair up, where no list is a null pointer
      with a count. */
  lemma LengthsPair(vt: ValueType, got: Value, recorded: Value)
    requires WellTyped(vt, got) && WellTyped(vt, recorded)
    requires CheckedCounts(vt, got) == CheckedCounts(vt, recorded)
    requires !NullWithCount(got.data) && !NullWithCount(recorded.data)
    ensures IsOidType(vt) ==> Pairable(got, recorded)
  {
  }

  /** Two attribute lists that pass the length check can be matched without leaving either. */
  lemma LengthsSuffice(m: Meta, t: ObjectType, got: seq<Attribute>, recorded: seq<Attribute>)
    requires |got| == |recorded|
    requires forall i :: 0 <= i < |got| ==>
               TypedAs(m, t, got[i], recorded[i]) && LengthsAgree(m, t, got[i], recorded[i])
    requires forall i :: 0 <= i < |got| ==> !NullWithCount(got[i].value.data) && !NullWithCount(recorded[i].value.data)
    ensures ComparableLists(m, t, got, recorded)
  {
    forall i | 0 <= i < |got| ensures Comparable(m, t, got[i], recorded[i]) {
      assert TypedAs(m, t, got[i], recorded[i]) && LengthsAgree(m, t, got[i], recorded[i]);
      LengthsPair(m.Of(t, recorded[i].id).valueType, got[i].value, recorded[i].value);
    }
  }

  // --------------------------------------------------------------- tokenizing

  function JoinedBy(tokens: seq<string>, delim: string): string {
    if tokens == [] then "" else if |tokens| == 1 then tokens[0]
    else JoinedBy(tokens[..|tokens| - 1], delim) + delim + tokens[|tokens| - 1]
  }

  predicate OccursAt(s: string, part: string, i: nat) { i <= |s| && part <= s[i..] }

  /** `std::string::find`; `|s| + 1` stands for npos. */
  function FindText(s: string, part: string): (i: nat)
    ensures i <= |s| ==> OccursAt(s, part, i)
    ensures i <= |s| || i == |s| + 1
    ensures forall j: nat :: j < i && j <= |s| ==> !OccursAt(s, part, j)
  {
    if part <= s then 0
    else if s == "" then 1
    else
      var i := FindText(s[1..], part);
      assert forall j: nat :: 0 < j && j - 1 <= |s[1..]| ==> s[j..] == s[1..][j - 1..];
      assert s[0..] == s;
      assert forall j: nat :: 0 < j <= |s| ==> (OccursAt(s, part, j) <==> OccursAt(s[1..], part, j - 1));
      i + 1
  }

  predicate Without(s: string, part: string) { forall j: nat :: j <= |s| ==> !OccursAt(s, part, j) }

  /** `tokenize` by a delimiter text: the tokens joined by the delimiter are the input, and
      none contains the delimiter. (An empty delimiter is found for ever.) */
  method Tokenize(text: string, delim: string) returns (tokens: seq<string>)
    requires delim != ""
    ensures tokens != [] && JoinedBy(tokens, delim) == text
    ensures forall t <- tokens :: Without(t, delim)
  {
    tokens := [];
    var input := text;
    var pos := FindText(input, delim);
    while pos <= |input|
      invariant pos == FindText(input, delim)
      invariant text == if tokens == [] then input else JoinedBy(tokens, delim) + delim + input
      invariant forall t <- tokens :: Without(t, delim)
      decreases |input|
    {
      var token := input[..pos];
      TokenWithout(input, delim, pos);
      FoundSplits(input, delim, pos);
      JoinMore(tokens, delim, token, input[pos + |delim|..]);
      input := input[pos + |delim|..];
      tokens := tokens + [token];
      pos := FindText(input, delim);
    }
    JoinLast(tokens, delim, input);
    tokens := tokens + [input];
  }

  lemma FoundSplits(s: string, part: string, i: nat)
    requires OccursAt(s, part, i)
    ensures i + |part| <= |s| && s == s[..i] + part + s[i + |part|..]
  {
    assert s[i..] == part + s[i..][|part|..];
    assert s[i..][|part|..] == s[i + |part|..];
  }

  lemma PrefixOccurs(s: string, i: nat, part: string, j: nat)
    requires i <= |s| && OccursAt(s[..i], part, j)
    ensures OccursAt(s, part, j)
  {
    FoundSplits(s[..i], part, j);
    assert s[j..][..|part|] == s[..i][j..][..|part|];
  }

  lemma TokenWithout(s: string, part: string, i: nat)
    requires part != "" && i == FindText(s, part) && i <= |s|
    ensures Without(s[..i], part)
  {
    assert s[..i][i..] == "";
    forall j: nat | j < i ensures !OccursAt(s[..i], part, j) {
      if OccursAt(s[..i], part, j) {
        PrefixOccurs(s, i, part, j);
      }
    }
  }

  lemma JoinLast(tokens: seq<string>, delim: string, last: string)
    ensures JoinedBy(tokens + [last], delim) ==
      if tokens == [] then last else JoinedBy(tokens, delim) + delim + last
  {
    assert (tokens + [last])[..|tokens|] == tokens;
  }

  lemma JoinMore(tokens: seq<string>, delim: string, token: string, rest: string)
    ensures (if tokens == [] then token + delim + rest
             else JoinedBy(tokens, delim) + delim + (token + delim + rest))
         == JoinedBy(tokens + [token], delim) + delim + rest
  {
    JoinLast(tokens, delim, token);
    if tokens != [] {
      var j := JoinedBy(tokens, delim);
      assert j + delim + (token + delim + rest) == (j + delim + token) + delim + rest;
    }
  }
}
