/** Recursive discovery (saidiscovery.cpp): a depth-first walk over the vendor's object
    graph, cycles included, that fills a map shared by all its recursive calls. */
module Discovery {
  import opened Sai

  /** Object id, object list, a type full discovery reads, or one it does not support. */
  datatype Kind = OneOid | ManyOids | Readable | Unsupported

  datatype AttrInfo = AttrInfo(objectType: ObjectType, id: AttrId, name: string, kind: Kind)

  /** A successful get: the printed value and the object ids it holds. */
  datatype Answer = Answer(text: string, oids: seq<Oid>)

  /** A stable vendor graph: the type of each oid, the attributes of each type, and what a
      get answers, None being any status but success. */
  datatype Graph = Graph(
    typeOf: Oid -> ObjectType,
    attrsOf: ObjectType -> seq<AttrInfo>,
    answer: (Oid, AttrId) -> Option<Answer>,
    full: bool)

  const PORT_FEC_MODE: AttrId := 46
  const PORT_GLOBAL_FLOW_CONTROL_MODE: AttrId := 52
  const SWITCH_INIT_SWITCH: AttrId := 112

  /** The attributes that are asked for; the rest are worked around, not wanted or not
      supported. */
  predicate Asked(g: Graph, a: AttrInfo) {
    if a.objectType == PORT && a.id == PORT_HW_LANE_LIST then false
    else
      match a.kind
      case OneOid => !(a.objectType == STP && a.id == STP_BRIDGE_ID)
      case ManyOids => true
      case _ =>
        && g.full && a.kind == Readable
        && !(a.objectType == PORT && a.id in {PORT_FEC_MODE, PORT_GLOBAL_FLOW_CONTROL_MODE})
        && !(a.objectType == SWITCH && a.id == SWITCH_INIT_SWITCH)
  }

  predicate IsObject(g: Graph, o: Oid) { o != NULL_OID && g.typeOf(o) != NULL_TYPE }

  function AttrsOf(g: Graph, o: Oid): seq<AttrInfo> { g.attrsOf(g.typeOf(o)) }

  /** The oids followed from one attribute. */
  function Links(g: Graph, o: Oid, a: AttrInfo): seq<Oid> {
    if Asked(g, a) && a.kind in {OneOid, ManyOids} && g.answer(o, a.id).Some?
    then g.answer(o, a.id).value.oids else []
  }

  function LinksUpTo(g: Graph, o: Oid, n: nat): seq<Oid>
    requires n <= |AttrsOf(g, o)|
  {
    if n == 0 then [] else LinksUpTo(g, o, n - 1) + Links(g, o, AttrsOf(g, o)[n - 1])
  }

  function TextsUpTo(g: Graph, o: Oid, n: nat): map<string, string>
    requires n <= |AttrsOf(g, o)|
  {
    if n == 0 then map[]
    else
      var a := AttrsOf(g, o)[n - 1];
      var texts := TextsUpTo(g, o, n - 1);
      if Asked(g, a) && g.answer(o, a.id).Some? then texts[a.name := g.answer(o, a.id).value.text] else texts
  }

  function CallsUpTo(g: Graph, o: Oid, n: nat): nat
    requires n <= |AttrsOf(g, o)|
  {
    if n == 0 then 0 else CallsUpTo(g, o, n - 1) + if Asked(g, AttrsOf(g, o)[n - 1]) then 1 else 0
  }

  function AllLinks(g: Graph, o: Oid): seq<Oid> { LinksUpTo(g, o, |AttrsOf(g, o)|) }
  function AllTexts(g: Graph, o: Oid): map<string, string> { TextsUpTo(g, o, |AttrsOf(g, o)|) }
  function Calls(g: Graph, o: Oid): nat { CallsUpTo(g, o, |AttrsOf(g, o)|) }

  // ----------------------------------------------------- what is asked and followed

  /** The attributes full discovery gets besides object ids: all of a readable type but the
      port's FEC mode and global flow control mode and the switch's init flag. */
  predicate ReadInFull(a: AttrInfo) {
    && a.kind == Readable
    && (a.objectType == 1 ==> a.id !in {27, 46, 52})
    && (a.objectType == 33 ==> a.id != 112)
  }

  /** The attributes of object id or object list kind that are asked for: all but the port's
      lane list and the STP's bridge id. */
  predicate HoldsLinks(a: AttrInfo) {
    && a.kind in {OneOid, ManyOids}
    && !(a.objectType == 1 && a.id == 27)
    && !(a.kind == OneOid && a.objectType == 16 && a.id == 1)
  }

  lemma AskedRule(g: Graph, a: AttrInfo)
    ensures Asked(g, a) <==> HoldsLinks(a) || (g.full && ReadInFull(a))
  {
  }

  /** Object `o` names `b` in an attribute that is asked for and answered. */
  ghost predicate Names(g: Graph, o: Oid, b: Oid) {
    exists a <- AttrsOf(g, o) :: HoldsLinks(a) && g.answer(o, a.id).Some? && b in g.answer(o, a.id).value.oids
  }

  /** The oids followed from an object are those it names. */
  lemma LinksExactly(g: Graph, o: Oid, b: Oid)
    ensures b in AllLinks(g, o) <==> Names(g, o, b)
  {
    LinksUpToExactly(g, o, |AttrsOf(g, o)|, b);
    if Names(g, o, b) {
      var a :| a in AttrsOf(g, o) && NamedIn(g, o, a, b);
      var i: nat :| i < |AttrsOf(g, o)| && AttrsOf(g, o)[i] == a;
      assert NamedIn(g, o, AttrsOf(g, o)[i], b);
    }
  }

  predicate NamedIn(g: Graph, o: Oid, a: AttrInfo, b: Oid) {
    HoldsLinks(a) && g.answer(o, a.id).Some? && b in g.answer(o, a.id).value.oids
  }

  lemma {:induction false} LinksUpToExactly(g: Graph, o: Oid, n: nat, b: Oid)
    requires n <= |AttrsOf(g, o)|
    ensures b in LinksUpTo(g, o, n) <==> exists i: nat :: i < n && NamedIn(g, o, AttrsOf(g, o)[i], b)
  {
    if n > 0 {
      LinksUpToExactly(g, o, n - 1, b);
      AskedRule(g, AttrsOf(g, o)[n - 1]);
      assert b in Links(g, o, AttrsOf(g, o)[n - 1]) <==> NamedIn(g, o, AttrsOf(g, o)[n - 1], b);
    }
  }

  /** The attribute is asked for and answered with this text. */
  predicate AnsweredWith(g: Graph, o: Oid, a: AttrInfo, text: string) {
    (HoldsLinks(a) || (g.full && ReadInFull(a))) && g.answer(o, a.id).Some? && g.answer(o, a.id).value.text == text
  }

  predicate IsAnswered(g: Graph, o: Oid, a: AttrInfo) {
    (HoldsLinks(a) || (g.full && ReadInFull(a))) && g.answer(o, a.id).Some?
  }

  /** The last answered attribute of that name has that text. */
  ghost predicate Records(g: Graph, o: Oid, name: string, text: string) {
    RecordsUpTo(g, o, |AttrsOf(g, o)|, name, text)
  }

  ghost predicate RecordsUpTo(g: Graph, o: Oid, n: nat, name: string, text: string)
    requires n <= |AttrsOf(g, o)|
  {
    exists i: nat :: i < n && AttrsOf(g, o)[i].name == name && AnsweredWith(g, o, AttrsOf(g, o)[i], text)
                     && forall j: nat :: i < j < n && AttrsOf(g, o)[j].name == name ==>
                          !IsAnswered(g, o, AttrsOf(g, o)[j])
  }

  /** The record of an object holds, under a name, the text of the last answered attribute of
      that name, and nothing under other names. */
  lemma {:induction false} TextsExactly(g: Graph, o: Oid, n: nat, name: string, text: string)
    requires n <= |AttrsOf(g, o)|
    ensures name in TextsUpTo(g, o, n) && TextsUpTo(g, o, n)[name] == text <==> RecordsUpTo(g, o, n, name, text)
  {
    if n > 0 {
      TextsExactly(g, o, n - 1, name, text);
      AskedRule(g, AttrsOf(g, o)[n - 1]);
    }
  }

  /** The attributes counted are those asked for, each once. */
  lemma {:induction false} CallsExactly(g: Graph, o: Oid, n: nat)
    requires n <= |AttrsOf(g, o)|
    ensures CallsUpTo(g, o, n) == |set i: nat | i < n && WantedAt(g, o, i)|
  {
    var now := set i: nat | i < n && WantedAt(g, o, i);
    if n == 0 {
      assert now == {};
    } else {
      var before := set i: nat | i < n - 1 && WantedAt(g, o, i);
      CallsExactly(g, o, n - 1);
      AskedRule(g, AttrsOf(g, o)[n - 1]);
      assert now == before + if WantedAt(g, o, n - 1) then {n - 1} else {};
    }
  }

  predicate WantedAt(g: Graph, o: Oid, i: nat) {
    i < |AttrsOf(g, o)|
    && (HoldsLinks(AttrsOf(g, o)[i]) || (g.full && ReadInFull(AttrsOf(g, o)[i])))
  }

  // -------------------------------------------------------------- reachability

  ghost predicate Linked(g: Graph, a: Oid, b: Oid) { Names(g, a, b) && IsObject(g, b) }

  ghost predicate IsPath(g: Graph, p: seq<Oid>) {
    p != [] && IsObject(g, p[0]) && forall i: nat :: i < |p| - 1 ==> Linked(g, p[i], p[i + 1])
  }

  ghost predicate Reaches(g: Graph, a: Oid, b: Oid) {
    exists p: seq<Oid> :: IsPath(g, p) && p[0] == a && p[|p| - 1] == b
  }

  lemma ReachesSelf(g: Graph, a: Oid)
    requires IsObject(g, a)
    ensures Reaches(g, a, a)
  {
    assert IsPath(g, [a]);
  }

  /** Following a link first, then a path. */
  lemma ReachesThrough(g: Graph, a: Oid, b: Oid, c: Oid)
    requires IsObject(g, a) && Linked(g, a, b) && Reaches(g, b, c)
    ensures Reaches(g, a, c)
  {
    var p: seq<Oid> :| IsPath(g, p) && p[0] == b && p[|p| - 1] == c;
    var q := [a] + p;
    forall i: nat | i < |q| - 1 ensures Linked(g, q[i], q[i + 1]) {
      if i > 0 {
        assert Linked(g, p[i - 1], p[i]);
      }
    }
    assert IsPath(g, q) && q[|q| - 1] == c;
  }

  // ----------------------------------------------------------------- call totals

  ghost function Total(g: Graph, s: set<Oid>): nat {
    if s == {} then 0 else var o :| o in s; Calls(g, o) + Total(g, s - {o})
  }

  lemma {:induction false} TotalSplit(g: Graph, s: set<Oid>, o: Oid)
    requires o in s
    ensures Total(g, s) == Calls(g, o) + Total(g, s - {o})
    decreases |s|
  {
    var x :| x in s && Total(g, s) == Calls(g, x) + Total(g, s - {x});
    if x != o {
      TotalSplit(g, s - {x}, o);
      TotalSplit(g, s - {o}, x);
      assert s - {x} - {o} == s - {o} - {x};
    }
  }

  lemma {:induction false} TotalUnion(g: Graph, s: set<Oid>, t: set<Oid>)
    requires s !! t
    ensures Total(g, s + t) == Total(g, s) + Total(g, t)
    decreases |s|
  {
    if s == {} {
      assert s + t == t;
    } else {
      var o :| o in s;
      TotalSplit(g, s, o);
      TotalSplit(g, s + t, o);
      assert s + t - {o} == (s - {o}) + t;
      TotalUnion(g, s - {o}, t);
    }
  }

  // ------------------------------------------------------- what a walk achieves

  type Found = map<Oid, map<string, string>>

  ghost predicate Extends(d0: Found, d: Found) {
    d0.Keys <= d.Keys && forall o <- d0 :: d[o] == d0[o]
  }

  /** Every object linked from `from` is among `all`. */
  ghost predicate ClosedIn(g: Graph, from: set<Oid>, all: set<Oid>) {
    forall o, l :: o in from && Linked(g, o, l) ==> l in all
  }

  ghost predicate ReachedFrom(g: Graph, roots: seq<Oid>, o: Oid) {
    exists r <- roots :: IsObject(g, r) && Reaches(g, r, o)
  }

  /** The walk from `roots` took the map from `d0` to `d` in `calls` gets: nothing found
      before is touched, every root that is an object is found, what is new is reachable
      from a root, has all its links found and all its attributes recorded, and each new
      object was expanded exactly once. */
  ghost predicate Followed(g: Graph, d0: Found, d: Found, roots: seq<Oid>, calls: int) {
    && Extends(d0, d)
    && (forall r <- roots :: IsObject(g, r) ==> r in d)
    && ClosedIn(g, d.Keys - d0.Keys, d.Keys)
    && (forall o <- d.Keys - d0.Keys :: ReachedFrom(g, roots, o))
    && (forall o <- d.Keys - d0.Keys :: d[o] == AllTexts(g, o))
    && calls == Total(g, d.Keys - d0.Keys)
  }

  lemma FollowedNone(g: Graph, d: Found)
    ensures Followed(g, d, d, [], 0)
  {
    assert d.Keys - d.Keys == {};
  }

  lemma FollowedSkip(g: Graph, d: Found, o: Oid)
    requires !IsObject(g, o) || o in d
    ensures Followed(g, d, d, [o], 0)
  {
    assert d.Keys - d.Keys == {};
  }

  lemma FollowedTwice(g: Graph, d0: Found, d1: Found, d2: Found, a: seq<Oid>, b: seq<Oid>, m: int, n: int)
    requires Followed(g, d0, d1, a, m) && Followed(g, d1, d2, b, n)
    ensures Followed(g, d0, d2, a + b, m + n)
  {
    var first, second := d1.Keys - d0.Keys, d2.Keys - d1.Keys;
    assert d2.Keys - d0.Keys == first + second;
    TotalUnion(g, first, second);
    forall o | o in first + second ensures ReachedFrom(g, a + b, o) {
      var r :| r in (if o in first then a else b) && IsObject(g, r) && Reaches(g, r, o);
      assert r in a + b;
    }
    forall o | o in first ensures d2[o] == AllTexts(g, o) {
      assert d1[o] == d2[o];
    }
  }

  lemma FollowedGrows(g: Graph, d0: Found, d: Found, roots: seq<Oid>, calls: int)
    requires Followed(g, d0, d, roots, calls)
    ensures d0.Keys <= d.Keys
  {
  }

  /** The record of an object that is being expanded does not matter to a walk. */
  lemma FollowedAside(g: Graph, d: Found, e: Found, roots: seq<Oid>, calls: int, o: Oid)
    requires o in d && Followed(g, d, e, roots, calls)
    ensures o in e && e[o] == d[o]
    ensures Followed(g, d[o := map[]], e[o := map[]], roots, calls)
  {
    var d', e' := d[o := map[]], e[o := map[]];
    assert d'.Keys == d.Keys && e'.Keys == e.Keys;
    assert forall n <- e.Keys - d.Keys :: e'[n] == e[n];
  }

  lemma ExpandExtends(g: Graph, d0: Found, e: Found, o: Oid)
    requires o !in d0 && Extends(d0[o := map[]], e)
    ensures Extends(d0, e[o := AllTexts(g, o)])
    ensures e[o := AllTexts(g, o)].Keys - d0.Keys == {o} + (e.Keys - d0[o := map[]].Keys)
  {
    forall k | k in d0 ensures e[o := AllTexts(g, o)][k] == d0[k] {
      assert e[k] == d0[o := map[]][k];
    }
  }

  lemma ExpandReaches(g: Graph, o: Oid, n: Oid)
    requires IsObject(g, o)
    requires n == o || ReachedFrom(g, AllLinks(g, o), n)
    ensures ReachedFrom(g, [o], n)
  {
    assert o in [o];
    if n == o {
      ReachesSelf(g, o);
    } else {
      var r :| r in AllLinks(g, o) && IsObject(g, r) && Reaches(g, r, n);
      LinksExactly(g, o, r);
      ReachesThrough(g, o, r, n);
    }
  }

  lemma ExpandTotal(g: Graph, o: Oid, found: set<Oid>)
    requires o !in found
    ensures Total(g, {o} + found) == Calls(g, o) + Total(g, found)
  {
    TotalSplit(g, {o} + found, o);
    assert {o} + found - {o} == found;
  }

  lemma ExpandClosed(g: Graph, o: Oid, found: set<Oid>, all: set<Oid>, more: set<Oid>)
    requires ClosedIn(g, found, all) && all <= more
    requires forall r <- AllLinks(g, o) :: IsObject(g, r) ==> r in all
    ensures ClosedIn(g, {o} + found, more)
  {
    forall a, l | a in {o} + found && Linked(g, a, l) ensures l in more {
      if a == o {
        LinksExactly(g, o, l);
      }
    }
  }

  lemma ExpandRecords(g: Graph, e: Found, o: Oid, found: set<Oid>)
    requires found <= e.Keys && forall n <- found :: e[n] == AllTexts(g, n)
    ensures forall n <- {o} + found :: e[o := AllTexts(g, o)][n] == AllTexts(g, n)
  {
  }

  /** Expanding one object: its own gets and the walk over all its links. */
  lemma FollowedExpand(g: Graph, d0: Found, e: Found, o: Oid, calls: int)
    requires IsObject(g, o) && o !in d0
    requires Followed(g, d0[o := map[]], e, AllLinks(g, o), calls)
    ensures Followed(g, d0, e[o := AllTexts(g, o)], [o], Calls(g, o) + calls)
  {
    var d, found := e[o := AllTexts(g, o)], e.Keys - d0[o := map[]].Keys;
    ExpandExtends(g, d0, e, o);
    ExpandTotal(g, o, found);
    ExpandClosed(g, o, found, e.Keys, d.Keys);
    ExpandRecords(g, e, o, found);
    forall n | n in {o} + found ensures ReachedFrom(g, [o], n) {
      ExpandReaches(g, o, n);
    }
  }

  predicate Within(o: nat) { o < TWO_64 }

  ghost function Universe(): set<Oid> { set o: nat | o < TWO_64 && Within(o) :: o }

  class Walk {
    const g: Graph
    var discovered: Found

    constructor (g: Graph)
      ensures this.g == g && discovered == map[]
    {
      this.g := g;
      discovered := map[];
    }

    /** The oids that may still be found; discovery uses this set up. */
    ghost function Left(): set<Oid>
      reads this
    {
      Universe() - discovered.Keys
    }

    /** `discover` */
    method Discover(id: Oid) returns (callCount: int)
      modifies this
      ensures Followed(g, old(discovered), discovered, [id], callCount)
      decreases Left(), 1, 0
    {
      callCount := 0;
      ghost var before := discovered;
      if id == NULL_OID || id in discovered || g.typeOf(id) == NULL_TYPE {
        FollowedSkip(g, discovered, id);
        return;
      }
      discovered := discovered[id := map[]];
      assert Left() < old(Left()) by {
        assert Within(id);
        assert id in old(Left()) && id !in Left();
      }
      ghost var links;
      callCount, links := Expand(id);
      FollowedExpand(g, before, discovered[id := map[]], id, links);
      assert discovered == discovered[id := map[]][id := AllTexts(g, id)];
    }

    /** The attribute loop */
    method Expand(id: Oid) returns (callCount: int, ghost links: int)
      requires id in discovered && discovered[id] == map[]
      modifies this
      ensures id in discovered && discovered[id] == AllTexts(g, id)
      ensures Followed(g, old(discovered), discovered[id := map[]], AllLinks(g, id), links)
      ensures callCount == Calls(g, id) + links
      decreases Left(), 4, 0
    {
      var attrs, idx := AttrsOf(g, id), 0;
      callCount, links := 0, 0;
      assert discovered == discovered[id := map[]];
      FollowedNone(g, discovered);
      while idx < |attrs|
        invariant 0 <= idx <= |attrs|
        invariant id in discovered && discovered[id] == TextsUpTo(g, id, idx)
        invariant Followed(g, old(discovered), discovered[id := map[]], LinksUpTo(g, id, idx), links)
        invariant callCount == CallsUpTo(g, id, idx) + links
      {
        FollowedGrows(g, old(discovered), discovered[id := map[]], LinksUpTo(g, id, idx), links);
        assert Left() <= old(Left());
        callCount, links := ExpandNext(id, idx, old(discovered), callCount, links);
        idx := idx + 1;
      }
    }

    method ExpandNext(id: Oid, idx: nat, ghost d0: Found, calls: int, ghost links: int)
      returns (callCount: int, ghost total: int)
      requires idx < |AttrsOf(g, id)|
      requires id in discovered && discovered[id] == TextsUpTo(g, id, idx)
      requires Followed(g, d0, discovered[id := map[]], LinksUpTo(g, id, idx), links)
      modifies this
      ensures id in discovered && discovered[id] == TextsUpTo(g, id, idx + 1)
      ensures Followed(g, d0, discovered[id := map[]], LinksUpTo(g, id, idx + 1), total)
      ensures callCount - total == calls - links + if Asked(g, AttrsOf(g, id)[idx]) then 1 else 0
      decreases Left(), 3, 0
    {
      ghost var before := discovered;
      var md := AttrsOf(g, id)[idx];
      var own;
      ghost var more;
      own, more := ExpandAttr(id, md, idx);
      FollowedTwice(g, d0, before[id := map[]], discovered[id := map[]],
                    LinksUpTo(g, id, idx), Links(g, id, md), links, more);
      callCount, total := calls + own, links + more;
    }

    /** One attribute: it is asked for, recorded, and its object ids are followed. */
    method ExpandAttr(id: Oid, md: AttrInfo, idx: nat) returns (calls: int, ghost more: int)
      requires idx < |AttrsOf(g, id)| && md == AttrsOf(g, id)[idx]
      requires id in discovered && discovered[id] == TextsUpTo(g, id, idx)
      modifies this
      ensures id in discovered && discovered[id] == TextsUpTo(g, id, idx + 1)
      ensures Followed(g, old(discovered)[id := map[]], discovered[id := map[]], Links(g, id, md), more)
      ensures calls == more + if Asked(g, md) then 1 else 0
      decreases Left(), 2, 0
    {
      calls, more := 0, 0;
      FollowedNone(g, discovered[id := map[]]);
      if !Asked(g, md) {
        return;
      }
      calls := 1;
      var answer := g.answer(id, md.id);
      if answer.None? {
        return;
      }
      ghost var before := discovered;
      discovered := discovered[id := discovered[id][md.name := answer.value.text]];
      assert discovered[id := map[]] == before[id := map[]];
      if md.kind == OneOid || md.kind == ManyOids {
        ghost var recorded := discovered;
        assert Left() == old(Left());
        var followed := FollowAll(answer.value.oids);
        FollowedAside(g, recorded, discovered, answer.value.oids, followed, id);
        calls, more := calls + followed, followed;
      }
    }

    method FollowAll(oids: seq<Oid>) returns (calls: int)
      modifies this
      ensures Followed(g, old(discovered), discovered, oids, calls)
      decreases Left(), 1, 2
    {
      calls := 0;
      FollowedNone(g, discovered);
      var i := 0;
      while i < |oids|
        invariant 0 <= i <= |oids|
        invariant Followed(g, old(discovered), discovered, oids[..i], calls)
      {
        FollowedGrows(g, old(discovered), discovered, oids[..i], calls);
        assert Left() <= old(Left());
        calls := FollowNext(oids, i, old(discovered), calls);
        i := i + 1;
      }
      assert oids[..i] == oids;
    }

    method FollowNext(oids: seq<Oid>, i: nat, ghost d0: Found, calls: int) returns (total: int)
      requires i < |oids| && Followed(g, d0, discovered, oids[..i], calls)
      modifies this
      ensures Followed(g, d0, discovered, oids[..i + 1], total)
      decreases Left(), 1, 1
    {
      var more := Discover(oids[i]);
      FollowedTwice(g, d0, old(discovered), discovered, oids[..i], [oids[i]], calls, more);
      assert oids[..i + 1] == oids[..i] + [oids[i]];
      total := calls + more;
    }
  }

  // ------------------------------------------------------------------- closure

  lemma {:induction false} PathFound(g: Graph, d: Found, p: seq<Oid>, n: nat)
    requires ClosedIn(g, d.Keys, d.Keys) && IsPath(g, p) && p[0] in d && n < |p|
    ensures p[n] in d
  {
    if n > 0 {
      PathFound(g, d, p, n - 1);
      assert Linked(g, p[n - 1], p[n]);
    }
  }

  /** Discovery closure: started from a map whose links are all found already, such as the
      empty one, the walk ends with exactly the objects found before and those reachable
      from its root, and its result is the number of gets attempted on each new object,
      each expanded once. */
  lemma DiscoveryExact(g: Graph, d0: Found, d: Found, root: Oid, calls: int, o: Oid)
    requires ClosedIn(g, d0.Keys, d0.Keys) && Followed(g, d0, d, [root], calls)
    ensures o in d <==> o in d0 || (IsObject(g, root) && Reaches(g, root, o))
    ensures o in d && o !in d0 ==> d[o] == AllTexts(g, o) && forall name, text ::
              name in d[o] && d[o][name] == text <==> Records(g, o, name, text)
    ensures calls == Total(g, d.Keys - d0.Keys)
    ensures ClosedIn(g, d.Keys, d.Keys)
  {
    forall a, b | a in d.Keys && Linked(g, a, b) ensures b in d.Keys {
      if a in d0 {
        assert b in d0.Keys;
      }
    }
    if o in d && o !in d0 {
      assert ReachedFrom(g, [root], o);
      forall name, text ensures name in d[o] && d[o][name] == text <==> Records(g, o, name, text) {
        TextsExactly(g, o, |AttrsOf(g, o)|, name, text);
      }
    }
    if IsObject(g, root) && Reaches(g, root, o) {
      var p: seq<Oid> :| IsPath(g, p) && p[0] == root && p[|p| - 1] == o;
      assert root in [root];
      PathFound(g, d, p, |p| - 1);
    }
  }
}
