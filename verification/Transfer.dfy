/** Handing attribute values to a caller's buffers: the two-call protocol in which the
    first call learns the count and the second one receives the list (saiserialize.cpp). */
module Transfer {
  import opened Sai

  /** `Thrown` is an exception. */
  datatype Outcome = Success | Failure | BufferOverflow | NotImplemented | Thrown

  /** A caller's counted list: the count it announces and its buffer, if it gave one. */
  datatype Slot<T> = Slot(count: nat, buffer: Option<seq<T>>)

  /** The buffer has room for the announced count. */
  predicate Sized<T>(slot: Slot<T>) { slot.buffer.Some? ==> slot.count <= |slot.buffer.value| }

  function Transferred<T>(src: List<T>, dst: Slot<T>, countOnly: bool): (r: (Outcome, Slot<T>))
    requires Sized(dst)
  {
    if countOnly || dst.count == 0 then (Success, dst.(count := src.Count()))
    else if dst.buffer.None? then (Failure, dst)
    else if dst.count < src.Count() then (BufferOverflow, dst.(count := src.Count()))
    else if src.Null? && src.count > 0 then (Thrown, dst)
    else (Success, Slot(src.Count(), Some(src.Elements() + dst.buffer.value[src.Count()..])))
  }

  ghost function BufferOf<T>(list: array?<T>): Option<seq<T>>
    reads list
  {
    if list == null then None else Some(list[..])
  }

  /** `transfer_list` */
  method TransferList<T>(src: List<T>, list: array?<T>, announced: nat, countOnly: bool)
    returns (outcome: Outcome, count: nat)
    requires list != null ==> announced <= list.Length
    modifies if list == null then {} else {list}
    ensures (outcome, Slot(count, BufferOf(list))) == Transferred(src, Slot(announced, old(BufferOf(list))), countOnly)
  {
    count := announced;
    if countOnly || announced == 0 {
      return Success, src.Count();
    }
    if list == null {
      return Failure, count;
    }
    if announced >= src.Count() {
      if src.Null? && src.count > 0 {
        return Thrown, count;
      }
      count := src.Count();
      CopyElements(src.Elements(), list);
      return Success, count;
    }
    return BufferOverflow, src.Count();
  }

  method CopyElements<T>(items: seq<T>, list: array<T>)
    requires |items| <= list.Length
    modifies list
    ensures list[..] == items + old(list[..])[|items|..]
  {
    var i := 0;
    while i < |items|
      invariant 0 <= i <= |items|
      invariant forall j :: 0 <= j < i ==> list[j] == items[j]
      invariant forall j :: i <= j < list.Length ==> list[j] == old(list[j])
    {
      list[i] := items[i];
      i := i + 1;
    }
  }

  // ------------------------------------------------- the protocol for one list

  /** The slot holds the list: its count, and its elements at the start of the buffer. */
  predicate Holds<T(==)>(src: List<T>, slot: Slot<T>) {
    && slot.count == src.Count()
    && (slot.buffer.Some? && src.Count() > 0 ==>
          src.Items? && src.Count() <= |slot.buffer.value| && slot.buffer.value[..src.Count()] == src.items)
  }

  /** A sufficient buffer receives the whole list and keeps its tail; an insufficient one
      keeps all its elements and learns only the count it needs. */
  lemma TransferExact<T>(src: List<T>, count: nat, buffer: seq<T>, i: nat)
    requires 0 < count <= |buffer| && (src.Null? ==> src.count == 0)
    ensures var (outcome, slot) := Transferred(src, Slot(count, Some(buffer)), false);
            && slot.count == src.Count()
            && slot.buffer.Some? && |slot.buffer.value| == |buffer|
            && (outcome == Success <==> src.Count() <= count)
            && (outcome == BufferOverflow <==> count < src.Count())
            && (outcome == Success ==> Holds(src, slot))
            && (outcome == Success && i < |src.Elements()| ==> slot.buffer.value[i] == src.Elements()[i])
            && (i < |buffer| && (outcome != Success || i >= src.Count()) ==> slot.buffer.value[i] == buffer[i])
  {
  }

  /** The retry: whatever the first call answered short of an exception or a missing
      buffer, a second one with a buffer of the count it returned succeeds and delivers
      the list. */
  lemma RetrySucceeds<T>(src: List<T>, first: Slot<T>, countOnly: bool, buffer: seq<T>)
    requires Sized(first) && (src.Null? ==> src.count == 0)
    requires Transferred(src, first, countOnly).0 in {Success, BufferOverflow}
    requires |buffer| == Transferred(src, first, countOnly).1.count
    ensures var (outcome, slot) := Transferred(src, Slot(|buffer|, Some(buffer)), false);
            outcome == Success && Holds(src, slot) && slot.buffer == Some(src.Elements())
  {
    assert |buffer| == src.Count();
    if |buffer| > 0 {
      assert buffer[src.Count()..] == [];
      assert src.items + [] == src.items;
    } else {
      assert buffer == [] == src.Elements();
    }
  }

  // ----------------------------------------------------------------- attributes

  /** The caller's side of one value: a member written directly, or a counted list. */
  datatype Target =
    | Scalar(data: Data)
    | OidSlot(oids: Slot<Oid>)
    | NumberSlot(numbers: Slot<int>)
    | AddressSlot(ips: Slot<Ip>)
    | CapabilitySlot(mandatory: bool, actions: Slot<int>)

  datatype TargetValue =
    | PlainTo(data: Target)
    | FieldTo(enable: bool, data: Target, mask: Target)
    | ActionTo(enable: bool, data: Target)

  datatype TargetAttr = TargetAttr(id: AttrId, value: TargetValue)

  predicate Shaped(t: DataType, d: Target) {
    match t
    case OidListT => d.OidSlot? && Sized(d.oids)
    case NumberListT(_) => d.NumberSlot? && Sized(d.numbers)
    case VlanListT => d.NumberSlot? && Sized(d.numbers)
    case AddressListT => d.AddressSlot? && Sized(d.ips)
    case CapabilityT => d.CapabilitySlot? && Sized(d.actions)
    case _ => d.Scalar? && DataTyped(t, d.data)
  }

  /** The destination has the union member the attribute's type names. */
  predicate ShapedValue(vt: ValueType, v: TargetValue) {
    match vt
    case PlainT(t) => v.PlainTo? && Shaped(t, v.data)
    case FieldT(t) => v.FieldTo? && Shaped(t, v.data) && Shaped(t, v.mask)
    case ActionT(t) => v.ActionTo? && Shaped(t, v.data)
  }

  function TransferData(t: DataType, src: Data, dst: Target, countOnly: bool): (Outcome, Target)
    requires DataTyped(t, src) && Shaped(t, dst)
  {
    match t
    case OidListT => var r := Transferred(src.oids, dst.oids, countOnly); (r.0, OidSlot(r.1))
    case NumberListT(_) => var r := Transferred(src.numbers, dst.numbers, countOnly); (r.0, NumberSlot(r.1))
    case VlanListT => var r := Transferred(src.numbers, dst.numbers, countOnly); (r.0, NumberSlot(r.1))
    case AddressListT => var r := Transferred(src.ips, dst.ips, countOnly); (r.0, AddressSlot(r.1))
    case CapabilityT =>
      var r := Transferred(src.actions, dst.actions, countOnly); (r.0, CapabilitySlot(src.mandatory, r.1))
    case _ => (Success, Scalar(src))
  }

  /** `transfer_primitive` of the 16-bit member into the low half of a 32-bit number */
  function LowHalf(src: int, dst: int): int { dst - dst % 0x1_0000 + src % 0x1_0000 }

  function LowHalves(src: Data, dst: Target): Target
    requires src.NumberV? && dst.Scalar? && dst.data.NumberV?
  {
    Scalar(NumberV(LowHalf(src.n, dst.data.n)))
  }

  /** An ACL field. Only kinds printed with a mask transfer the mask; of 32-bit unsigned
      fields just the low halves are copied, and for byte lists the outcome of the data is
      dropped. */
  function TransferField(t: DataType, src: Value, dst: TargetValue, countOnly: bool): (Outcome, TargetValue)
    requires src.Field? && DataTyped(t, src.data) && DataTyped(t, src.mask)
    requires dst.FieldTo? && Shaped(t, dst.data) && Shaped(t, dst.mask)
  {
    match t
    case BoolT => (Success, FieldTo(src.enable, Scalar(src.data), dst.mask))
    case NumberT(k) =>
      if k == U32 then
        (Success, FieldTo(src.enable, LowHalves(src.data, dst.data), LowHalves(src.mask, dst.mask)))
      else if k in {U64, S64} then (NotImplemented, dst)
      else (Success, FieldTo(src.enable, Scalar(src.data), Scalar(src.mask)))
    case MacT => (Success, FieldTo(src.enable, Scalar(src.data), Scalar(src.mask)))
    case Ip4T => (Success, FieldTo(src.enable, Scalar(src.data), Scalar(src.mask)))
    case Ip6T => (Success, FieldTo(src.enable, Scalar(src.data), Scalar(src.mask)))
    case OidT => (Success, FieldTo(src.enable, Scalar(src.data), dst.mask))
    case OidListT =>
      var r := TransferData(t, src.data, dst.data, countOnly);
      (r.0, FieldTo(src.enable, r.1, dst.mask))
    case NumberListT(U8) =>
      var mask := TransferData(t, src.mask, dst.mask, countOnly);
      if mask.0 != Success then (mask.0, FieldTo(src.enable, dst.data, mask.1))
      else
        var data := TransferData(t, src.data, dst.data, countOnly);
        (if data.0 == Thrown then Thrown else Success, FieldTo(src.enable, data.1, mask.1))
    case _ => (NotImplemented, dst)
  }

  predicate ActionType(t: DataType) {
    match t
    case BoolT | MacT | Ip4T | Ip6T | OidT | OidListT => true
    case NumberT(k) => k !in {U64, S64}
    case _ => false
  }

  predicate PlainType(t: DataType) {
    match t
    case NumberListT(k) => k !in {U64, S64}
    case RangeT(k) => k in {U32, S32}
    case _ => true
  }

  /** `transfer_attribute` */
  function TransferValue(vt: ValueType, src: Value, dst: TargetValue, countOnly: bool): (Outcome, TargetValue)
    requires WellTyped(vt, src) && ShapedValue(vt, dst)
  {
    match vt
    case PlainT(t) =>
      if !PlainType(t) then (NotImplemented, dst)
      else var r := TransferData(t, src.data, dst.data, countOnly); (r.0, PlainTo(r.1))
    case FieldT(t) => TransferField(t, src, dst, countOnly)
    case ActionT(t) =>
      if !ActionType(t) then (NotImplemented, dst)
      else var r := TransferData(t, src.data, dst.data, countOnly); (r.0, ActionTo(src.enable, r.1))
  }

  // ------------------------------------------------------------- attribute lists

  /** Both sides hold what the metadata of their attribute ids says. */
  ghost predicate Paired(m: Meta, t: ObjectType, a: Attribute, b: TargetAttr) {
    a.id == b.id && m.Has(t, a.id) ==>
      WellTyped(m.Of(t, a.id).valueType, a.value) && ShapedValue(m.Of(t, a.id).valueType, b.value)
  }

  ghost predicate PairedLists(m: Meta, t: ObjectType, src: seq<Attribute>, dst: seq<TargetAttr>) {
    |src| == |dst| && forall i :: 0 <= i < |src| ==> Paired(m, t, src[i], dst[i])
  }

  /** One turn of the loop of `transfer_attributes` */
  function TransferAttr(m: Meta, t: ObjectType, a: Attribute, b: TargetAttr, countOnly: bool): (Outcome, TargetAttr)
    requires Paired(m, t, a, b)
  {
    if a.id != b.id || !m.Has(t, a.id) then (Thrown, b)
    else
      var r := TransferValue(m.Of(t, a.id).valueType, a.value, b.value, countOnly);
      (r.0, TargetAttr(b.id, r.1))
  }

  /** Attributes before `k` went through; the one at `k`, if any, ended the transfer; those
      after it are untouched. */
  ghost predicate StopsAt(m: Meta, t: ObjectType, src: seq<Attribute>, before: seq<TargetAttr>,
                          after: seq<TargetAttr>, countOnly: bool, outcome: Outcome, k: nat)
    requires PairedLists(m, t, src, before) && |after| == |before|
  {
    && k <= |src|
    && (forall i: nat :: i < k ==>
          TransferAttr(m, t, src[i], before[i], countOnly) == (Success, after[i]))
    && (k < |src| ==> outcome != Success
                      && TransferAttr(m, t, src[k], before[k], countOnly) == (outcome, after[k]))
    && (forall i: nat :: k < i < |src| ==> after[i] == before[i])
    && (k == |src| ==> outcome == Success)
  }

  /** `transfer_attributes` */
  method TransferAttributes(m: Meta, t: ObjectType, src: seq<Attribute>, dst: array<TargetAttr>, countOnly: bool)
    returns (outcome: Outcome, ghost k: nat)
    requires PairedLists(m, t, src, dst[..])
    modifies dst
    ensures StopsAt(m, t, src, old(dst[..]), dst[..], countOnly, outcome, k)
  {
    var i := 0;
    ghost var before := dst[..];
    while i < |src|
      invariant 0 <= i <= |src| && |dst[..]| == |before|
      invariant forall j: nat :: j < i ==> TransferAttr(m, t, src[j], before[j], countOnly) == (Success, dst[j])
      invariant forall j: nat :: i <= j < |src| ==> dst[j] == before[j]
    {
      assert Paired(m, t, src[i], before[i]);
      var r := TransferAttr(m, t, src[i], dst[i], countOnly);
      dst[i] := r.1;
      if r.0 != Success {
        return r.0, i;
      }
      i := i + 1;
    }
    return Success, |src|;
  }

  // -------------------------------------------------- the protocol for attributes

  predicate HoldsData(t: DataType, src: Data, dst: Target)
    requires DataTyped(t, src)
  {
    match t
    case OidListT => dst.OidSlot? && Holds(src.oids, dst.oids)
    case NumberListT(_) => dst.NumberSlot? && Holds(src.numbers, dst.numbers)
    case VlanListT => dst.NumberSlot? && Holds(src.numbers, dst.numbers)
    case AddressListT => dst.AddressSlot? && Holds(src.ips, dst.ips)
    case CapabilityT => dst.CapabilitySlot? && dst.mandatory == src.mandatory && Holds(src.actions, dst.actions)
    case _ => dst == Scalar(src)
  }

  function CountOf(t: DataType, src: Data): nat
    requires DataTyped(t, src)
  {
    match t
    case OidListT => src.oids.Count()
    case NumberListT(_) => src.numbers.Count()
    case VlanListT => src.numbers.Count()
    case AddressListT => src.ips.Count()
    case CapabilityT => src.actions.Count()
    case _ => 0
  }

  /** What a caller learns from a destination: the count of its list. */
  function Learned(dst: Target): nat {
    match dst
    case Scalar(_) => 0
    case OidSlot(s) => s.count
    case NumberSlot(s) => s.count
    case AddressSlot(s) => s.count
    case CapabilitySlot(_, s) => s.count
  }

  predicate NotNull(t: DataType, src: Data)
    requires DataTyped(t, src)
  {
    match t
    case OidListT => src.oids.Null? ==> src.oids.count == 0
    case NumberListT(_) => src.numbers.Null? ==> src.numbers.count == 0
    case VlanListT => src.numbers.Null? ==> src.numbers.count == 0
    case AddressListT => src.ips.Null? ==> src.ips.count == 0
    case CapabilityT => src.actions.Null? ==> src.actions.count == 0
    case _ => true
  }

  /** A destination with a buffer of exactly `n` elements where it is a list. */
  predicate Allocated(t: DataType, dst: Target, n: nat) {
    Shaped(t, dst) &&
    match dst
    case Scalar(_) => true
    case OidSlot(s) => s.buffer.Some? && s.count == n == |s.buffer.value|
    case NumberSlot(s) => s.buffer.Some? && s.count == n == |s.buffer.value|
    case AddressSlot(s) => s.buffer.Some? && s.count == n == |s.buffer.value|
    case CapabilitySlot(_, s) => s.buffer.Some? && s.count == n == |s.buffer.value|
  }

  /** Asking for counts never fails and returns the count of the list. */
  lemma CountsLearned(t: DataType, src: Data, dst: Target)
    requires DataTyped(t, src) && Shaped(t, dst)
    ensures var r := TransferData(t, src, dst, true); r.0 == Success && Learned(r.1) == CountOf(t, src)
  {
  }

  /** With buffers of the learned counts, a second call delivers every value. */
  lemma SecondCallDelivers(t: DataType, src: Data, first: Target, second: Target)
    requires DataTyped(t, src) && NotNull(t, src) && Shaped(t, first)
    requires Allocated(t, second, Learned(TransferData(t, src, first, true).1))
    ensures var r := TransferData(t, src, second, false); r.0 == Success && HoldsData(t, src, r.1)
  {
    CountsLearned(t, src, first);
    match t
    case OidListT => RetrySucceeds(src.oids, first.oids, true, second.oids.buffer.value);
    case NumberListT(_) => RetrySucceeds(src.numbers, first.numbers, true, second.numbers.buffer.value);
    case VlanListT => RetrySucceeds(src.numbers, first.numbers, true, second.numbers.buffer.value);
    case AddressListT => RetrySucceeds(src.ips, first.ips, true, second.ips.buffer.value);
    case CapabilityT => RetrySucceeds(src.actions, first.actions, true, second.actions.buffer.value);
    case _ =>
  }

  /** An ACL field of 32 unsigned bits is transferred exactly when the caller's buffer
      already holds its high halves. */
  lemma Field32Exact(src: Value, dst: TargetValue, countOnly: bool)
    requires WellTyped(FieldT(NumberT(U32)), src) && ShapedValue(FieldT(NumberT(U32)), dst)
    ensures var r := TransferValue(FieldT(NumberT(U32)), src, dst, countOnly);
            && r.0 == Success
            && (r.1 == FieldTo(src.enable, Scalar(src.data), Scalar(src.mask)) <==>
                  && src.data.n / 0x1_0000 == dst.data.data.n / 0x1_0000
                  && src.mask.n / 0x1_0000 == dst.mask.data.n / 0x1_0000)
  {
    LowHalfExact(src.data.n, dst.data.data.n);
    LowHalfExact(src.mask.n, dst.mask.data.n);
  }

  lemma LowHalfExact(src: int, dst: int)
    ensures LowHalf(src, dst) == src <==> src / 0x1_0000 == dst / 0x1_0000
  {
  }

  // ------------------------------------------------ the protocol for whole values

  predicate Implemented(vt: ValueType) {
    match vt
    case PlainT(t) => PlainType(t)
    case FieldT(t) => ActionType(t) || t == NumberListT(U8)
    case ActionT(t) => ActionType(t)
  }

  /** The types that are not handled, written out: unsigned and signed 64-bit lists and ACL
      numbers, ranges of other than 32 bits, and ACL data of any type but booleans, numbers,
      addresses, object ids and lists of them, with byte lists for fields. */
  lemma HandledExactly(vt: ValueType, src: Value, dst: TargetValue, countOnly: bool)
    requires WellTyped(vt, src) && ShapedValue(vt, dst)
    ensures (TransferValue(vt, src, dst, countOnly).0 == NotImplemented <==> !Implemented(vt))
         && (Implemented(vt) <==>
               match vt
               case PlainT(t) =>
                 t !in {NumberListT(U64), NumberListT(S64), RangeT(U8), RangeT(S8), RangeT(U16), RangeT(S16),
                        RangeT(U64), RangeT(S64)}
               case FieldT(t) =>
                 t in {BoolT, NumberT(U8), NumberT(S8), NumberT(U16), NumberT(S16), NumberT(U32), NumberT(S32),
                       MacT, Ip4T, Ip6T, OidT, OidListT, NumberListT(U8)}
               case ActionT(t) =>
                 t in {BoolT, NumberT(U8), NumberT(S8), NumberT(U16), NumberT(S16), NumberT(U32), NumberT(S32),
                       MacT, Ip4T, Ip6T, OidT, OidListT})
  {
  }

  /** Fields of these types carry their mask along. */
  predicate MaskCarried(t: DataType) { t.NumberT? || t.MacT? || t.Ip4T? || t.Ip6T? || t.NumberListT? }

  /** The value has arrived, its lists in full. */
  predicate Delivered(vt: ValueType, src: Value, dst: TargetValue)
    requires WellTyped(vt, src)
  {
    match vt
    case PlainT(t) => dst.PlainTo? && HoldsData(t, src.data, dst.data)
    case ActionT(t) => dst.ActionTo? && dst.enable == src.enable && HoldsData(t, src.data, dst.data)
    case FieldT(t) =>
      && dst.FieldTo? && dst.enable == src.enable && HoldsData(t, src.data, dst.data)
      && (MaskCarried(t) ==> HoldsData(t, src.mask, dst.mask))
  }

  predicate ValueNotNull(vt: ValueType, src: Value)
    requires WellTyped(vt, src)
  {
    NotNull(vt.t, src.data) && (src.Field? ==> NotNull(vt.t, src.mask))
  }

  /** A destination allocated by the counts another one has learned. */
  predicate AllocatedValue(vt: ValueType, dst: TargetValue, learned: TargetValue) {
    && ShapedValue(vt, dst) && Allocated(vt.t, dst.data, Learned(learned.data))
    && (vt.FieldT? ==> learned.FieldTo? && Allocated(vt.t, dst.mask, Learned(learned.mask)))
  }

  /** Asking for counts and then receiving into buffers of those counts delivers the value;
      unsigned 32-bit fields apart, this holds of every type that is transferred at all. */
  lemma TwoCallsDeliver(vt: ValueType, src: Value, first: TargetValue, second: TargetValue)
    requires WellTyped(vt, src) && ValueNotNull(vt, src) && Implemented(vt) && vt != FieldT(NumberT(U32))
    requires ShapedValue(vt, first) && AllocatedValue(vt, second, TransferValue(vt, src, first, true).1)
    ensures TransferValue(vt, src, first, true).0 == Success
    ensures TransferValue(vt, src, second, false).0 == Success
    ensures Delivered(vt, src, TransferValue(vt, src, second, false).1)
  {
    var t := vt.t;
    CountsLearned(t, src.data, first.data);
    if vt.FieldT? {
      if t == NumberListT(U8) {
        CountsLearned(t, src.mask, first.mask);
        SecondCallDelivers(t, src.mask, first.mask, second.mask);
        SecondCallDelivers(t, src.data, first.data, second.data);
      } else if t.OidListT? {
        SecondCallDelivers(t, src.data, first.data, second.data);
      }
    } else {
      SecondCallDelivers(t, src.data, first.data, second.data);
    }
  }

  ghost predicate Deliverable(m: Meta, t: ObjectType, a: Attribute, first: TargetAttr, second: TargetAttr) {
    && a.id == first.id == second.id && m.Has(t, a.id)
    && var vt := m.Of(t, a.id).valueType;
       && WellTyped(vt, a.value) && ValueNotNull(vt, a.value) && Implemented(vt) && vt != FieldT(NumberT(U32))
       && ShapedValue(vt, first.value)
       && AllocatedValue(vt, second.value, TransferValue(vt, a.value, first.value, true).1)
  }

  /** The two calls on a whole attribute list: neither stops early, and every value arrives. */
  lemma TwoCallsDeliverAll(m: Meta, t: ObjectType, src: seq<Attribute>,
                           first: seq<TargetAttr>, learned: seq<TargetAttr>, j: nat, asked: Outcome,
                           second: seq<TargetAttr>, received: seq<TargetAttr>, k: nat, outcome: Outcome)
    requires PairedLists(m, t, src, first) && PairedLists(m, t, src, second)
    requires |learned| == |first| && |received| == |second|
    requires StopsAt(m, t, src, first, learned, true, asked, j)
    requires StopsAt(m, t, src, second, received, false, outcome, k)
    requires forall i: nat :: i < |src| ==> Deliverable(m, t, src[i], first[i], second[i])
    ensures asked == Success && outcome == Success
    ensures forall i: nat :: i < |src| ==>
              Deliverable(m, t, src[i], first[i], second[i])
              && Delivered(m.Of(t, src[i].id).valueType, src[i].value, received[i].value)
  {
    if j < |src| { OneDelivered(m, t, src[j], first[j], second[j]); }
    if k < |src| { OneDelivered(m, t, src[k], first[k], second[k]); }
    forall i: nat | i < |src|
      ensures Deliverable(m, t, src[i], first[i], second[i])
      ensures Delivered(m.Of(t, src[i].id).valueType, src[i].value, received[i].value)
    {
      OneDelivered(m, t, src[i], first[i], second[i]);
    }
  }

  lemma OneDelivered(m: Meta, t: ObjectType, a: Attribute, first: TargetAttr, second: TargetAttr)
    requires Deliverable(m, t, a, first, second)
    ensures TransferAttr(m, t, a, first, true).0 == Success
    ensures TransferAttr(m, t, a, second, false).0 == Success
    ensures Delivered(m.Of(t, a.id).valueType, a.value, TransferAttr(m, t, a, second, false).1.value)
  {
    TwoCallsDeliver(m.Of(t, a.id).valueType, a.value, first.value, second.value);
  }
}
