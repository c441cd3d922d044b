/** What arrives and what is sent, kind by kind: the fields of a message against the types of a zval, for the
    translators of src/network/grpc/messages.cpp. */
module Fields {
  import opened Basics
  import opened Metadata

  datatype Kind =
    | KNothing | KBool | KInt(bits: nat, signed: bool) | KFloat | KDouble | KString | KWide | KMap
    | KInts(bits: nat, signed: bool) | KFloats | KDoubles | KStrings | KWides | KMaps | KValues

  function KindOf(v: Zval): Kind {
    match v
    case ZNone => KNothing
    case ZOther => KNothing
    case ZBool(_) => KBool
    case ZChar(_) => KInt(8, true)
    case ZByte(_) => KInt(8, false)
    case ZInt16(_) => KInt(16, true)
    case ZWord16(_) => KInt(16, false)
    case ZInt32(_) => KInt(32, true)
    case ZWord32(_) => KInt(32, false)
    case ZInt64(_) => KInt(64, true)
    case ZWord64(_) => KInt(64, false)
    case ZFloat(_) => KFloat
    case ZDouble(_) => KDouble
    case ZCharStr(_) => KString
    case ZWideStr(_) => KWide
    case ZZmap(_) => KMap
    case ZChars(_) => KInts(8, true)
    case ZBytes(_) => KInts(8, false)
    case ZInt16s(_) => KInts(16, true)
    case ZWord16s(_) => KInts(16, false)
    case ZInt32s(_) => KInts(32, true)
    case ZWord32s(_) => KInts(32, false)
    case ZInt64s(_) => KInts(64, true)
    case ZWord64s(_) => KInts(64, false)
    case ZFloats(_) => KFloats
    case ZDoubles(_) => KDoubles
    case ZCharStrs(_) => KStrings
    case ZWideStrs(_) => KWides
    case ZZmaps(_) => KMaps
    case ZZvals(_) => KValues
  }

  /** The kind of the field that is set in a message. */
  function FieldKind(m: MetaValue): Kind {
    match m
    case MUnset => KNothing
    case MBool(_) => KBool
    case MInt32(_) => KInt(32, true)
    case MInt64(_) => KInt(64, true)
    case MUint32(_) => KInt(32, false)
    case MUint64(_) => KInt(64, false)
    case MFloat(_) => KFloat
    case MDouble(_) => KDouble
    case MString(_) => KString
    case MMeta(_) => KMap
    case MInt32s(_) => KInts(32, true)
    case MInt64s(_) => KInts(64, true)
    case MUint32s(_) => KInts(32, false)
    case MUint64s(_) => KInts(64, false)
    case MFloats(_) => KFloats
    case MDoubles(_) => KDoubles
    case MStrings(_) => KStrings
    case MMetas(_) => KMaps
    case MValues(_) => KValues
  }

  function FieldInt(m: MetaValue): Option<int> {
    match m
    case MInt32(x) => Some(x)
    case MInt64(x) => Some(x)
    case MUint32(x) => Some(x)
    case MUint64(x) => Some(x)
    case _ => None
  }

  function FieldReal(m: MetaValue): Option<real> {
    match m
    case MFloat(x) => Some(x)
    case MDouble(x) => Some(x)
    case _ => None
  }

  function FieldInts(m: MetaValue): Option<seq<int>> {
    match m
    case MInt32s(xs) => Some(xs)
    case MInt64s(xs) => Some(xs)
    case MUint32s(xs) => Some(xs)
    case MUint64s(xs) => Some(xs)
    case _ => None
  }

  function FieldReals(m: MetaValue): Option<seq<real>> {
    match m
    case MFloats(xs) => Some(xs)
    case MDoubles(xs) => Some(xs)
    case _ => None
  }

  function IntOf(v: Zval): Option<int> {
    match v
    case ZChar(x) => Some(x)
    case ZByte(x) => Some(x)
    case ZInt16(x) => Some(x)
    case ZWord16(x) => Some(x)
    case ZInt32(x) => Some(x)
    case ZWord32(x) => Some(x)
    case ZInt64(x) => Some(x)
    case ZWord64(x) => Some(x)
    case _ => None
  }

  function RealOf(v: Zval): Option<real> {
    match v
    case ZFloat(x) => Some(x)
    case ZDouble(x) => Some(x)
    case _ => None
  }

  function RealsOf(v: Zval): Option<seq<real>> {
    match v
    case ZFloats(xs) => Some(xs)
    case ZDoubles(xs) => Some(xs)
    case _ => None
  }

  /** Some value of the message, at whatever depth, is not set. */
  ghost predicate HasUnset(m: MetaValue) {
    match m
    case MUnset => true
    case MMeta(d) => HasUnsetIn(d)
    case MMetas(ms) => exists i :: 0 <= i < |ms| && HasUnsetIn(ms[i])
    case MValues(vs) => exists i :: 0 <= i < |vs| && HasUnset(vs[i])
    case _ => false
  }

  ghost predicate HasUnsetIn(d: Meta) {
    exists k :: k in d.data && HasUnset(d.data[k])
  }

  /** Same kind and same contents, at every depth. */
  ghost predicate Holds(v: Zval, m: MetaValue) {
    && KindOf(v) == FieldKind(m)
    && IntOf(v) == FieldInt(m) && RealOf(v) == FieldReal(m)
    && IntsOf(v) == FieldInts(m) && RealsOf(v) == FieldReals(m)
    && (m.MBool? ==> v == ZBool(m.b))
    && (m.MString? ==> v == ZCharStr(m.s))
    && (m.MStrings? ==> v == ZCharStrs(m.ss))
    && (m.MMeta? ==> v.ZZmap? && HoldsMap(v.m, m.m))
    && (m.MMetas? ==> v.ZZmaps? && |v.ms| == |m.ms| && forall i :: 0 <= i < |m.ms| ==> HoldsMap(v.ms[i], m.ms[i]))
    && (m.MValues? ==> v.ZZvals? && |v.vs| == |m.vs| && forall i :: 0 <= i < |m.vs| ==> Holds(v.vs[i], m.vs[i]))
  }

  ghost predicate HoldsMap(z: Zmap, d: Meta) {
    && (forall k :: k in z.items ==> k.CharKey? && k.s in d.data)
    && (forall s :: s in d.data ==> CharKey(s) in z.items && Holds(z.items[CharKey(s)], d.data[s]))
  }

  /** Reading a message throws exactly if some value is not set. */
  lemma {:induction false} DecodeThrowsExactly(m: MetaValue)
    ensures Decode(m).Throw? <==> HasUnset(m)
  {
    hide DecodeMap;
    match m
    case MMeta(d) => DecodeMapThrowsExactly(d);
    case MMetas(ms) =>
      forall i | 0 <= i < |ms| ensures DecodeMap(ms[i]).Throw? <==> HasUnsetIn(ms[i]) {
        DecodeMapThrowsExactly(ms[i]);
      }
    case MValues(vs) =>
      forall i | 0 <= i < |vs| ensures Decode(vs[i]).Throw? <==> HasUnset(vs[i]) {
        DecodeThrowsExactly(vs[i]);
      }
    case _ =>
  }

  lemma {:induction false} DecodeMapThrowsExactly(d: Meta)
    ensures DecodeMap(d).Throw? <==> HasUnsetIn(d)
  {
    hide Decode, HasUnset;
    forall k | k in d.data ensures Decode(d.data[k]).Throw? <==> HasUnset(d.data[k]) {
      DecodeThrowsExactly(d.data[k]);
    }
  }

  lemma LeafHolds(m: MetaValue)
    requires !m.MMeta? && !m.MMetas? && !m.MValues? && Decode(m).Ok?
    ensures Holds(Decode(m).value, m)
  {
    hide DecodeMap, HoldsMap;
  }

  /** Otherwise everything in the message is in the zval: every number, string and key unchanged, with the width, the
      sign and the float or double kind of its field. */
  lemma {:induction false} DecodeHolds(m: MetaValue)
    requires Decode(m).Ok?
    ensures Holds(Decode(m).value, m)
  {
    hide DecodeMap, HoldsMap;
    match m
    case MMeta(d) => DecodeMapHolds(d);
    case MMetas(ms) =>
      var z := Decode(m).value;
      forall i | 0 <= i < |ms| ensures HoldsMap(z.ms[i], ms[i]) {
        DecodeMapHolds(ms[i]);
      }
    case MValues(vs) =>
      var z := Decode(m).value;
      forall i | 0 <= i < |vs| ensures Holds(z.vs[i], vs[i]) {
        DecodeHolds(vs[i]);
      }
    case _ => LeafHolds(m);
  }

  lemma {:induction false} DecodeMapHolds(d: Meta)
    requires DecodeMap(d).Ok?
    ensures HoldsMap(DecodeMap(d).value, d)
  {
    hide Decode, Holds;
    DecodableMap(d);
    DecodedMap(d);
    forall s | s in d.data ensures Holds(DecodeMap(d).value.items[CharKey(s)], d.data[s]) {
      DecodeHolds(d.data[s]);
    }
  }

  lemma SameLeaf(v: Zval, m: MetaValue, n: MetaValue)
    requires Holds(v, m) && Holds(v, n) && !m.MMeta? && !m.MMetas? && !m.MValues? && !m.MUnset?
    ensures m == n
  {
    hide HoldsMap;
  }

  /** A zval holds the contents of one message only. */
  lemma {:induction false} HoldsOne(v: Zval, m: MetaValue, n: MetaValue)
    requires Holds(v, m) && Holds(v, n) && !HasUnset(m)
    ensures m == n
    decreases m
  {
    hide HoldsMap, HasUnsetIn;
    match m
    case MMeta(d) => HoldsOneMap(v.m, d, n.m);
    case MMetas(ms) =>
      forall i | 0 <= i < |ms| ensures ms[i] == n.ms[i] {
        HoldsOneMap(v.ms[i], ms[i], n.ms[i]);
      }
      assert ms == n.ms;
    case MValues(vs) =>
      forall i | 0 <= i < |vs| ensures vs[i] == n.vs[i] {
        HoldsOne(v.vs[i], vs[i], n.vs[i]);
      }
      assert vs == n.vs;
    case _ => SameLeaf(v, m, n);
  }

  lemma {:induction false} HoldsOneMap(z: Zmap, d: Meta, e: Meta)
    requires HoldsMap(z, d) && HoldsMap(z, e) && !HasUnsetIn(d)
    ensures d == e
    decreases d
  {
    hide Holds, HasUnset;
    forall s | s in d.data ensures s in e.data && d.data[s] == e.data[s] {
      assert CharKey(s) in z.items;
      HoldsOne(z.items[CharKey(s)], d.data[s], e.data[s]);
    }
    forall s | s in e.data ensures s in d.data {
      assert CharKey(s) in z.items;
    }
    assert d.data == e.data;
  }

  /** Different messages never become the same zval. */
  lemma DecodeIsInjective(m: MetaValue, n: MetaValue)
    requires Decode(m).Ok? && Decode(n) == Decode(m)
    ensures m == n
  {
    hide Decode, Holds, HasUnset;
    DecodeHolds(m);
    DecodeHolds(n);
    DecodeThrowsExactly(m);
    HoldsOne(Decode(m).value, m, n);
  }

  lemma DecodeMapIsInjective(d: Meta, e: Meta)
    requires DecodeMap(d).Ok? && DecodeMap(e) == DecodeMap(d)
    ensures d == e
  {
    hide DecodeMap, HoldsMap, HasUnsetIn;
    DecodeMapHolds(d);
    DecodeMapHolds(e);
    DecodeMapThrowsExactly(d);
    HoldsOneMap(DecodeMap(d).value, d, e);
  }

  /** The kind of the field that a value is sent in: integers of less than 64 bits and all integer arrays in 32 bits
      with their sign, a word64 in 32 bits, arrays of floating-point numbers as signed integers. */
  function SentKind(k: Kind): Kind {
    match k
    case KInt(bits, signed) => if bits == 64 && signed then KInt(64, true) else KInt(32, signed)
    case KInts(_, signed) => KInts(32, signed)
    case KFloats => KInts(32, true)
    case KDoubles => KInts(32, true)
    case KWide => KString
    case KWides => KStrings
    case _ => k
  }

  /** Equal as numbers of 32 bits. */
  predicate Congruent(x: int, y: int) {
    (x - y) % 0x1_0000_0000 == 0
  }

  /** `n` is `x` without its fraction. */
  predicate IsTruncated(n: int, x: real) {
    if x >= 0.0 then n as real <= x < n as real + 1.0 else n as real - 1.0 < x <= n as real
  }

  predicate NarrowedTo(y: int, x: real) {
    Congruent(y, Truncate(x)) && IsTruncated(Truncate(x), x)
  }

  /** What is sent for a value: the kind of its field, and its numbers, equal in 32 bits, and fully if they are sent in
      as many bits or fit. */
  ghost predicate Sends(utf8: Utf8, v: Zval, m: MetaValue) {
    && FieldKind(m) == SentKind(KindOf(v))
    && (IntOf(v).Some? ==> FieldInt(m).Some? && Congruent(FieldInt(m).value, IntOf(v).value)
                           && (!v.ZWord64? ==> FieldInt(m) == IntOf(v)))
    && RealOf(v) == FieldReal(m)
    && (IntsOf(v).Some? ==>
          && FieldInts(m).Some? && |FieldInts(m).value| == |IntsOf(v).value|
          && forall i :: 0 <= i < |IntsOf(v).value| ==> Congruent(FieldInts(m).value[i], IntsOf(v).value[i]))
    && (RealsOf(v).Some? ==>
          && FieldInts(m).Some? && |FieldInts(m).value| == |RealsOf(v).value|
          && forall i :: 0 <= i < |RealsOf(v).value| ==> NarrowedTo(FieldInts(m).value[i], RealsOf(v).value[i]))
    && (v.ZBool? ==> m == MBool(v.b))
    && (v.ZCharStr? ==> m == MString(v.s))
    && (v.ZWideStr? ==> m == MString(utf8(v.w)))
    && (v.ZCharStrs? ==> m == MStrings(v.ss))
    && (v.ZWideStrs? ==> m.MStrings? && |m.ss| == |v.ws| && forall i :: 0 <= i < |v.ws| ==> m.ss[i] == utf8(v.ws[i]))
    && (v.ZZmap? ==> m.MMeta? && SendsMap(utf8, v.m, m.m))
    && (v.ZZmaps? ==> m.MMetas? && |m.ms| == |v.ms|
                      && forall i :: 0 <= i < |v.ms| ==> SendsMap(utf8, v.ms[i], m.ms[i]))
    && (v.ZZvals? ==> m.MValues? && |m.vs| == |v.vs| && forall i :: 0 <= i < |v.vs| ==> Sends(utf8, v.vs[i], m.vs[i]))
  }

  ghost predicate SendsMap(utf8: Utf8, z: Zmap, d: Meta) {
    && (forall k :: k in z.items ==> k.CharKey? && k.s in d.data && Sends(utf8, z.items[k], d.data[k.s]))
    && (forall s :: s in d.data ==> CharKey(s) in z.items)
  }

  lemma NarrowIsCongruent(x: int)
    ensures Congruent(Narrow32(x), x) && Congruent(NarrowWord32(x), x)
  {
  }

  lemma TruncateTruncates(x: real)
    ensures IsTruncated(Truncate(x), x)
  {
  }

  /** Every element is sent as it is, or narrowed. */
  lemma EncodedInts(utf8: Utf8, v: Zval)
    requires IntsOf(v).Some?
    ensures Encode(utf8, v).Ok?
    ensures var m, xs := Encode(utf8, v).value, IntsOf(v).value;
            && FieldKind(m) == SentKind(KindOf(v)) && FieldInts(m).Some? && |FieldInts(m).value| == |xs|
            && forall i :: 0 <= i < |xs| ==>
                 FieldInts(m).value[i] == xs[i] || FieldInts(m).value[i] == Narrow32(xs[i])
                 || FieldInts(m).value[i] == NarrowWord32(xs[i])
  {
    hide EncodeMap, Narrow32, NarrowWord32;
  }

  lemma IntsSent(utf8: Utf8, v: Zval)
    requires IntsOf(v).Some?
    ensures Encode(utf8, v).Ok? && Sends(utf8, v, Encode(utf8, v).value)
  {
    hide Encode, SendsMap, Congruent, Narrow32, NarrowWord32;
    EncodedInts(utf8, v);
    forall i | 0 <= i < |IntsOf(v).value|
      ensures Congruent(FieldInts(Encode(utf8, v).value).value[i], IntsOf(v).value[i])
    {
      NarrowIsCongruent(IntsOf(v).value[i]);
      CongruentToItself(IntsOf(v).value[i]);
    }
  }

  lemma CongruentToItself(x: int)
    ensures Congruent(x, x)
  {
  }

  lemma RealsSent(utf8: Utf8, v: Zval)
    requires RealsOf(v).Some? && Encode(utf8, v).Ok?
    ensures Sends(utf8, v, Encode(utf8, v).value)
  {
    hide EncodeMap, SendsMap, Congruent, Narrow32, NarrowWord32, Truncate, IsTruncated;
    forall i | 0 <= i < |RealsOf(v).value|
      ensures NarrowedTo(Narrow32(Truncate(RealsOf(v).value[i])), RealsOf(v).value[i])
    {
      NarrowIsCongruent(Truncate(RealsOf(v).value[i]));
      TruncateTruncates(RealsOf(v).value[i]);
    }
  }

  lemma LeafSent(utf8: Utf8, v: Zval)
    requires !v.ZZmap? && !v.ZZmaps? && !v.ZZvals? && IntsOf(v).None? && RealsOf(v).None? && Encode(utf8, v).Ok?
    ensures Sends(utf8, v, Encode(utf8, v).value)
  {
    hide EncodeMap, SendsMap, NarrowWord32, Congruent;
    if IntOf(v).Some? {
      NarrowIsCongruent(IntOf(v).value);
      CongruentToItself(IntOf(v).value);
    }
  }

  lemma MapSent(utf8: Utf8, m: Zmap)
    requires Encode(utf8, ZZmap(m)).Ok? && SendsMap(utf8, m, EncodeMap(utf8, m).value)
    ensures Sends(utf8, ZZmap(m), Encode(utf8, ZZmap(m)).value)
  {
    hide EncodeMap, SendsMap;
  }

  lemma MapsSent(utf8: Utf8, ms: seq<Zmap>)
    requires Encode(utf8, ZZmaps(ms)).Ok?
    requires forall i :: 0 <= i < |ms| ==> SendsMap(utf8, ms[i], EncodeMap(utf8, ms[i]).value)
    ensures Sends(utf8, ZZmaps(ms), Encode(utf8, ZZmaps(ms)).value)
  {
    hide EncodeMap, SendsMap;
  }

  lemma ValuesSent(utf8: Utf8, vs: seq<Zval>)
    requires Encode(utf8, ZZvals(vs)).Ok?
    requires forall i :: 0 <= i < |vs| ==> Encode(utf8, vs[i]).Ok? && Sends(utf8, vs[i], Encode(utf8, vs[i]).value)
    ensures Sends(utf8, ZZvals(vs), Encode(utf8, ZZvals(vs)).value)
  {
    hide EncodeMap, SendsMap;
  }

  lemma ItemsSent(utf8: Utf8, v: Zval)
    requires Encode(utf8, v).Ok?
    ensures v.ZZmap? ==> EncodeMap(utf8, v.m).Ok?
    ensures v.ZZmaps? ==> forall i :: 0 <= i < |v.ms| ==> EncodeMap(utf8, v.ms[i]).Ok?
    ensures v.ZZvals? ==> forall i :: 0 <= i < |v.vs| ==> Encode(utf8, v.vs[i]).Ok?
  {
    hide EncodeMap;
  }

  /** What is sent, for every tree and at any depth. */
  lemma {:induction false} EncodeSends(utf8: Utf8, v: Zval)
    requires Encode(utf8, v).Ok?
    ensures Sends(utf8, v, Encode(utf8, v).value)
  {
    hide Encode, Sends, EncodeMap, SendsMap;
    ItemsSent(utf8, v);
    match v
    case ZZmap(m) =>
      EncodeMapSends(utf8, m);
      MapSent(utf8, m);
    case ZZmaps(ms) =>
      forall i | 0 <= i < |ms| ensures SendsMap(utf8, ms[i], EncodeMap(utf8, ms[i]).value) {
        EncodeMapSends(utf8, ms[i]);
      }
      MapsSent(utf8, ms);
    case ZZvals(vs) =>
      forall i | 0 <= i < |vs| ensures Sends(utf8, vs[i], Encode(utf8, vs[i]).value) {
        EncodeSends(utf8, vs[i]);
      }
      ValuesSent(utf8, vs);
    case _ =>
      if IntsOf(v).Some? {
        IntsSent(utf8, v);
      } else if RealsOf(v).Some? {
        RealsSent(utf8, v);
      } else {
        LeafSent(utf8, v);
      }
  }

  lemma {:induction false} EncodeMapSends(utf8: Utf8, m: Zmap)
    requires EncodeMap(utf8, m).Ok?
    ensures SendsMap(utf8, m, EncodeMap(utf8, m).value)
  {
    hide Encode, Sends;
    EncodedMap(utf8, m);
    forall k | k in m.items ensures Sends(utf8, m.items[k], EncodeMap(utf8, m).value.data[k.s]) {
      EncodeSends(utf8, m.items[k]);
    }
  }
}
