/** Metadata on the wire: the translators between zval/zmap trees and MetaValue/Metadata messages
    of src/network/grpc/messages.cpp, in both directions. */
module Metadata {

  import opened Basics

  type Int8 = x: int | -0x80 <= x < 0x80
  type Word8 = x: int | 0 <= x < 0x100
  type Int16 = x: int | -0x8000 <= x < 0x8000
  type Word16 = x: int | 0 <= x < 0x1_0000
  type Word32 = x: int | 0 <= x < 0x1_0000_0000
  type Int64 = x: int | -0x8000_0000_0000_0000 <= x < 0x8000_0000_0000_0000
  type Word64 = x: int | 0 <= x < 0x1_0000_0000_0000_0000
  type WideStr = seq<Word16>

  /** The encoder behind `codepages::widetombcs( codepage_utf8, ... )`. */
  type Utf8 = WideStr -> string

  datatype Key = CharKey(s: string) | WideKey(w: WideStr) | NumKey(n: Word32)

  datatype Zmap = Zmap(items: map<Key, Zval>)

  datatype Zval =
    | ZNone | ZOther
    | ZChar(i8: Int8) | ZByte(w8: Word8) | ZInt16(i16: Int16) | ZWord16(w16: Word16)
    | ZInt32(i32: Int32) | ZWord32(w32: Word32) | ZInt64(i64: Int64) | ZWord64(w64: Word64)
    | ZFloat(f: real) | ZDouble(d: real) | ZBool(b: bool)
    | ZCharStr(s: string) | ZWideStr(w: WideStr) | ZZmap(m: Zmap)
    | ZChars(i8s: seq<Int8>) | ZBytes(w8s: seq<Word8>) | ZInt16s(i16s: seq<Int16>) | ZWord16s(w16s: seq<Word16>)
    | ZInt32s(i32s: seq<Int32>) | ZWord32s(w32s: seq<Word32>) | ZInt64s(i64s: seq<Int64>) | ZWord64s(w64s: seq<Word64>)
    | ZFloats(fs: seq<real>) | ZDoubles(ds: seq<real>)
    | ZCharStrs(ss: seq<string>) | ZWideStrs(ws: seq<WideStr>) | ZZmaps(ms: seq<Zmap>) | ZZvals(vs: seq<Zval>)

  datatype Meta = Meta(data: map<string, MetaValue>)

  datatype MetaValue =
    | MUnset
    | MBool(b: bool) | MInt32(i32: Int32) | MInt64(i64: Int64) | MUint32(u32: Word32) | MUint64(u64: Word64)
    | MFloat(f: real) | MDouble(d: real) | MString(s: string) | MMeta(m: Meta)
    | MInt32s(i32s: seq<Int32>) | MInt64s(i64s: seq<Int64>) | MUint32s(u32s: seq<Word32>) | MUint64s(u64s: seq<Word64>)
    | MFloats(fs: seq<real>) | MDoubles(ds: seq<real>) | MStrings(ss: seq<string>)
    | MMetas(ms: seq<Meta>) | MValues(vs: seq<MetaValue>)

  // ---------------------------------------------------------------------------------------
  // Implicit number conversions
  // ---------------------------------------------------------------------------------------

  function Narrow32(x: int): Int32 {
    var w := x % 0x1_0000_0000;
    if w < 0x8000_0000 then w else w - 0x1_0000_0000
  }

  function NarrowWord32(x: int): Word32 {
    x % 0x1_0000_0000
  }

  /** Floating point to integer truncates towards zero. */
  function Truncate(x: real): int {
    if x >= 0.0 then x.Floor else -(-x).Floor
  }

  function NarrowAll(xs: seq<int>): (r: seq<Int32>)
    ensures |r| == |xs| && forall i :: 0 <= i < |xs| ==> r[i] == Narrow32(xs[i])
  {
    seq(|xs|, i requires 0 <= i < |xs| => Narrow32(xs[i]))
  }

  function NarrowWords(xs: seq<int>): (r: seq<Word32>)
    ensures |r| == |xs| && forall i :: 0 <= i < |xs| ==> r[i] == NarrowWord32(xs[i])
  {
    seq(|xs|, i requires 0 <= i < |xs| => NarrowWord32(xs[i]))
  }

  function NarrowReals(xs: seq<real>): (r: seq<Int32>)
    ensures |r| == |xs| && forall i :: 0 <= i < |xs| ==> r[i] == Narrow32(Truncate(xs[i]))
  {
    seq(|xs|, i requires 0 <= i < |xs| => Narrow32(Truncate(xs[i])))
  }

  // ---------------------------------------------------------------------------------------
  // MetaValue from zval, Metadata from zmap
  // ---------------------------------------------------------------------------------------

  function Encode(utf8: Utf8, v: Zval): Result<MetaValue> {
    match v
    case ZChar(x) => Ok(MInt32(x))
    case ZByte(x) => Ok(MUint32(x))
    case ZInt16(x) => Ok(MInt32(x))
    case ZWord16(x) => Ok(MUint32(x))
    case ZInt32(x) => Ok(MInt32(x))
    case ZWord32(x) => Ok(MUint32(x))
    case ZInt64(x) => Ok(MInt64(x))
    case ZWord64(x) => Ok(MUint32(NarrowWord32(x)))
    case ZFloat(x) => Ok(MFloat(x))
    case ZDouble(x) => Ok(MDouble(x))
    case ZBool(x) => Ok(MBool(x))
    case ZCharStr(x) => Ok(MString(x))
    case ZWideStr(x) => Ok(MString(utf8(x)))
    case ZZmap(m) => (match EncodeMap(utf8, m) case Ok(r) => Ok(MMeta(r)) case Throw => Throw)
    case ZChars(xs) => Ok(MInt32s(xs))
    case ZBytes(xs) => Ok(MUint32s(xs))
    case ZInt16s(xs) => Ok(MInt32s(xs))
    case ZWord16s(xs) => Ok(MUint32s(xs))
    case ZInt32s(xs) => Ok(MInt32s(xs))
    case ZWord32s(xs) => Ok(MUint32s(xs))
    case ZInt64s(xs) => Ok(MInt32s(NarrowAll(xs)))
    case ZWord64s(xs) => Ok(MUint32s(NarrowWords(xs)))
    case ZFloats(xs) => Ok(MInt32s(NarrowReals(xs)))
    case ZDoubles(xs) => Ok(MInt32s(NarrowReals(xs)))
    case ZCharStrs(xs) => Ok(MStrings(xs))
    case ZWideStrs(xs) => Ok(MStrings(Map(utf8, xs)))
    case ZZmaps(ms) =>
      if forall i :: 0 <= i < |ms| ==> EncodeMap(utf8, ms[i]).Ok? then
        Ok(MMetas(seq(|ms|, i requires 0 <= i < |ms| => EncodeMap(utf8, ms[i]).value)))
      else Throw
    case ZZvals(vs) =>
      if forall i :: 0 <= i < |vs| ==> Encode(utf8, vs[i]).Ok? then
        Ok(MValues(seq(|vs|, i requires 0 <= i < |vs| => Encode(utf8, vs[i]).value)))
      else Throw
    case ZNone => Throw
    case ZOther => Throw
  }

  function EncodeMap(utf8: Utf8, m: Zmap): Result<Meta> {
    if forall k :: k in m.items ==> k.CharKey? && Encode(utf8, m.items[k]).Ok? then
      Ok(Meta(map k | k in m.items :: k.s := Encode(utf8, m.items[k]).value))
    else Throw
  }

  // ---------------------------------------------------------------------------------------
  // zval from MetaValue, zmap from Metadata
  // ---------------------------------------------------------------------------------------

  function Decode(v: MetaValue): Result<Zval> {
    match v
    case MBool(x) => Ok(ZBool(x))
    case MInt32(x) => Ok(ZInt32(x))
    case MInt64(x) => Ok(ZInt64(x))
    case MUint32(x) => Ok(ZWord32(x))
    case MUint64(x) => Ok(ZWord64(x))
    case MFloat(x) => Ok(ZFloat(x))
    case MDouble(x) => Ok(ZDouble(x))
    case MString(x) => Ok(ZCharStr(x))
    case MMeta(m) => (match DecodeMap(m) case Ok(r) => Ok(ZZmap(r)) case Throw => Throw)
    case MInt32s(xs) => Ok(ZInt32s(xs))
    case MInt64s(xs) => Ok(ZInt64s(xs))
    case MUint32s(xs) => Ok(ZWord32s(xs))
    case MUint64s(xs) => Ok(ZWord64s(xs))
    case MFloats(xs) => Ok(ZFloats(xs))
    case MDoubles(xs) => Ok(ZDoubles(xs))
    case MStrings(xs) => Ok(ZCharStrs(xs))
    case MMetas(ms) =>
      if forall i :: 0 <= i < |ms| ==> DecodeMap(ms[i]).Ok? then
        Ok(ZZmaps(seq(|ms|, i requires 0 <= i < |ms| => DecodeMap(ms[i]).value)))
      else Throw
    case MValues(vs) =>
      if forall i :: 0 <= i < |vs| ==> Decode(vs[i]).Ok? then
        Ok(ZZvals(seq(|vs|, i requires 0 <= i < |vs| => Decode(vs[i]).value)))
      else Throw
    case MUnset => Throw
  }

  function DecodeMap(m: Meta): Result<Zmap> {
    if forall k :: k in m.data ==> Decode(m.data[k]).Ok? then
      Ok(Zmap(map k | k in m.data :: CharKey(k) := Decode(m.data[k]).value))
    else Throw
  }

  // ---------------------------------------------------------------------------------------
  // When a tree can be sent at all
  // ---------------------------------------------------------------------------------------

  /** No value of an unknown type anywhere, and string keys only. */
  ghost predicate Convertible(v: Zval) {
    match v
    case ZNone => false
    case ZOther => false
    case ZZmap(m) => ConvertibleMap(m)
    case ZZmaps(ms) => forall i :: 0 <= i < |ms| ==> ConvertibleMap(ms[i])
    case ZZvals(vs) => forall i :: 0 <= i < |vs| ==> Convertible(vs[i])
    case _ => true
  }

  ghost predicate ConvertibleMap(m: Zmap) {
    forall k :: k in m.items ==> k.CharKey? && Convertible(m.items[k])
  }

  lemma EncodeStep(utf8: Utf8, v: Zval)
    requires v.ZZmap? ==> (EncodeMap(utf8, v.m).Ok? <==> ConvertibleMap(v.m))
    requires v.ZZmaps? ==> forall i :: 0 <= i < |v.ms| ==> (EncodeMap(utf8, v.ms[i]).Ok? <==> ConvertibleMap(v.ms[i]))
    requires v.ZZvals? ==> forall i :: 0 <= i < |v.vs| ==> (Encode(utf8, v.vs[i]).Ok? <==> Convertible(v.vs[i]))
    ensures Encode(utf8, v).Ok? <==> Convertible(v)
  {
  }

  /** Conversion throws exactly on the trees that are not convertible. */
  lemma {:induction false} EncodeSucceeds(utf8: Utf8, v: Zval)
    ensures Encode(utf8, v).Ok? <==> Convertible(v)
  {
    hide Encode, Convertible, EncodeMap, ConvertibleMap;
    match v {
      case ZZmap(m) => EncodeMapSucceeds(utf8, m);
      case ZZmaps(ms) =>
        forall i | 0 <= i < |ms| ensures EncodeMap(utf8, ms[i]).Ok? <==> ConvertibleMap(ms[i]) {
          EncodeMapSucceeds(utf8, ms[i]);
        }
      case ZZvals(vs) =>
        forall i | 0 <= i < |vs| ensures Encode(utf8, vs[i]).Ok? <==> Convertible(vs[i]) {
          EncodeSucceeds(utf8, vs[i]);
        }
      case _ =>
    }
    EncodeStep(utf8, v);
  }

  lemma {:induction false} EncodeMapSucceeds(utf8: Utf8, m: Zmap)
    ensures EncodeMap(utf8, m).Ok? <==> ConvertibleMap(m)
  {
    forall k | k in m.items ensures Encode(utf8, m.items[k]).Ok? <==> Convertible(m.items[k]) {
      EncodeSucceeds(utf8, m.items[k]);
    }
  }

  // ---------------------------------------------------------------------------------------
  // Messages that survive the trip to a zval and back
  // ---------------------------------------------------------------------------------------

  /** Decodes `m` and encodes it again. */
  function Replay(utf8: Utf8, m: MetaValue): Result<MetaValue> {
    match Decode(m) case Ok(v) => Encode(utf8, v) case Throw => Throw
  }

  function ReplayMap(utf8: Utf8, m: Meta): Result<Meta> {
    match DecodeMap(m) case Ok(v) => EncodeMap(utf8, v) case Throw => Throw
  }

  /** The message uses only the kinds of values that the encoder writes. */
  ghost predicate Replayable(m: MetaValue) {
    match m
    case MUnset => false
    case MUint64(_) => false
    case MInt64s(_) => false
    case MUint64s(_) => false
    case MFloats(_) => false
    case MDoubles(_) => false
    case MMeta(d) => ReplayableMap(d)
    case MMetas(ms) => forall i :: 0 <= i < |ms| ==> ReplayableMap(ms[i])
    case MValues(vs) => forall i :: 0 <= i < |vs| ==> Replayable(vs[i])
    case _ => true
  }

  ghost predicate ReplayableMap(m: Meta) {
    forall k :: k in m.data ==> Replayable(m.data[k])
  }

  lemma ReplayLeaf(utf8: Utf8, m: MetaValue)
    requires !m.MMeta? && !m.MMetas? && !m.MValues?
    ensures Replay(utf8, m) == Ok(m) <==> Replayable(m)
  {
    hide EncodeMap, DecodeMap;
    if Replayable(m) {
      ReplayedLeaf(utf8, m);
    } else {
      LostLeaf(utf8, m);
    }
  }

  lemma ReplayedLeaf(utf8: Utf8, m: MetaValue)
    requires !m.MMeta? && !m.MMetas? && !m.MValues? && Replayable(m)
    ensures Replay(utf8, m) == Ok(m)
  {
    hide EncodeMap, DecodeMap;
    match m
    case MBool(x) => assert Encode(utf8, ZBool(x)) == Ok(m);
    case MInt32(x) => assert Encode(utf8, ZInt32(x)) == Ok(m);
    case MInt64(x) => assert Encode(utf8, ZInt64(x)) == Ok(m);
    case MUint32(x) => assert Encode(utf8, ZWord32(x)) == Ok(m);
    case MFloat(x) => assert Encode(utf8, ZFloat(x)) == Ok(m);
    case MDouble(x) => assert Encode(utf8, ZDouble(x)) == Ok(m);
    case MString(x) => assert Encode(utf8, ZCharStr(x)) == Ok(m);
    case MInt32s(xs) => assert Encode(utf8, ZInt32s(xs)) == Ok(m);
    case MUint32s(xs) => assert Encode(utf8, ZWord32s(xs)) == Ok(m);
    case MStrings(xs) => assert Encode(utf8, ZCharStrs(xs)) == Ok(m);
  }

  /** The other kinds come back with another type, or are refused. */
  lemma LostLeaf(utf8: Utf8, m: MetaValue)
    requires !m.MMeta? && !m.MMetas? && !m.MValues? && !Replayable(m)
    ensures Replay(utf8, m) != Ok(m)
  {
    hide EncodeMap, DecodeMap;
    match m
    case MUnset => assert Decode(m) == Throw;
    case MUint64(x) => assert Encode(utf8, ZWord64(x)).value.MUint32?;
    case MInt64s(xs) => assert Encode(utf8, ZInt64s(xs)).value.MInt32s?;
    case MUint64s(xs) => assert Encode(utf8, ZWord64s(xs)).value.MUint32s?;
    case MFloats(xs) => assert Encode(utf8, ZFloats(xs)).value.MInt32s?;
    case MDoubles(xs) => assert Encode(utf8, ZDoubles(xs)).value.MInt32s?;
  }

  lemma ReplayValues(utf8: Utf8, vs: seq<MetaValue>)
    requires forall i :: 0 <= i < |vs| ==> Replay(utf8, vs[i]) == Ok(vs[i])
    ensures Replay(utf8, MValues(vs)) == Ok(MValues(vs))
  {
    assert forall i :: 0 <= i < |vs| ==> Decode(vs[i]).Ok?;
    var zs := Decode(MValues(vs)).value.vs;
    forall i | 0 <= i < |vs| ensures Encode(utf8, zs[i]) == Ok(vs[i]) {
      assert Replay(utf8, vs[i]) == Ok(vs[i]);
    }
    assert Encode(utf8, ZZvals(zs)).value.vs == vs;
  }

  lemma ReplayValueAt(utf8: Utf8, vs: seq<MetaValue>, i: nat)
    requires Replay(utf8, MValues(vs)) == Ok(MValues(vs)) && i < |vs|
    ensures Replay(utf8, vs[i]) == Ok(vs[i])
  {
  }

  lemma ReplayMetas(utf8: Utf8, ms: seq<Meta>)
    requires forall i :: 0 <= i < |ms| ==> ReplayMap(utf8, ms[i]) == Ok(ms[i])
    ensures Replay(utf8, MMetas(ms)) == Ok(MMetas(ms))
  {
    hide EncodeMap, DecodeMap;
    assert forall i :: 0 <= i < |ms| ==> DecodeMap(ms[i]).Ok?;
    var zs := Decode(MMetas(ms)).value.ms;
    forall i | 0 <= i < |ms| ensures EncodeMap(utf8, zs[i]) == Ok(ms[i]) {
      assert ReplayMap(utf8, ms[i]) == Ok(ms[i]);
    }
    assert Encode(utf8, ZZmaps(zs)).value.ms == ms;
  }

  lemma ReplayMetaAt(utf8: Utf8, ms: seq<Meta>, i: nat)
    requires Replay(utf8, MMetas(ms)) == Ok(MMetas(ms)) && i < |ms|
    ensures ReplayMap(utf8, ms[i]) == Ok(ms[i])
  {
    hide EncodeMap, DecodeMap;
    var zs := Decode(MMetas(ms)).value.ms;
    assert DecodeMap(ms[i]) == Ok(zs[i]);
    assert Encode(utf8, ZZmaps(zs)).value.ms[i] == EncodeMap(utf8, zs[i]).value;
  }

  /** The decoded map has the same keys, with the decoded values. */
  lemma DecodedMap(m: Meta)
    requires forall k :: k in m.data ==> Decode(m.data[k]).Ok?
    ensures DecodeMap(m).Ok?
    ensures var z := DecodeMap(m).value.items;
            && (forall k :: k in m.data ==> CharKey(k) in z && Decode(m.data[k]) == Ok(z[CharKey(k)]))
            && (forall k :: k in z ==> k.CharKey? && k.s in m.data)
  {
  }

  /** The encoded map has the same keys, with the encoded values. */
  lemma EncodedMap(utf8: Utf8, m: Zmap)
    requires EncodeMap(utf8, m).Ok?
    ensures var d := EncodeMap(utf8, m).value.data;
            && (forall k :: k in m.items ==> k.CharKey? && k.s in d && Encode(utf8, m.items[k]) == Ok(d[k.s]))
            && (forall s :: s in d ==> CharKey(s) in m.items)
  {
  }

  lemma ReplayEntries(utf8: Utf8, m: Meta)
    requires forall k :: k in m.data ==> Replay(utf8, m.data[k]) == Ok(m.data[k])
    ensures ReplayMap(utf8, m) == Ok(m)
  {
    hide Encode, Decode;
    assert forall k :: k in m.data ==> Decode(m.data[k]).Ok?;
    DecodedMap(m);
    var z := DecodeMap(m).value;
    forall k | k in z.items ensures k.CharKey? && Encode(utf8, z.items[k]) == Ok(m.data[k.s]) {
      assert Replay(utf8, m.data[k.s]) == Ok(m.data[k.s]);
    }
    EncodedMap(utf8, z);
    assert EncodeMap(utf8, z).value.data == m.data;
  }

  lemma ReplayEntryAt(utf8: Utf8, m: Meta, k: string)
    requires ReplayMap(utf8, m) == Ok(m) && k in m.data
    ensures Replay(utf8, m.data[k]) == Ok(m.data[k])
  {
    DecodedMap(m);
    var z := DecodeMap(m).value;
    EncodedMap(utf8, z);
    assert Encode(utf8, z.items[CharKey(k)]) == Ok(m.data[k]);
  }

  /** Exactly those messages come back unchanged. */
  lemma {:induction false} ReplayExactly(utf8: Utf8, m: MetaValue)
    ensures Replay(utf8, m) == Ok(m) <==> Replayable(m)
  {
    hide Replay, Encode, Decode;
    match m
    case MMeta(d) =>
      ReplayMapExactly(utf8, d);
      ReplayMeta(utf8, d);
    case MMetas(ms) =>
      forall i | 0 <= i < |ms| ensures ReplayMap(utf8, ms[i]) == Ok(ms[i]) <==> ReplayableMap(ms[i]) {
        ReplayMapExactly(utf8, ms[i]);
      }
      if Replayable(m) {
        ReplayMetas(utf8, ms);
      } else if Replay(utf8, m) == Ok(m) {
        forall i | 0 <= i < |ms| ensures ReplayableMap(ms[i]) {
          ReplayMetaAt(utf8, ms, i);
        }
      }
    case MValues(vs) =>
      forall i | 0 <= i < |vs| ensures Replay(utf8, vs[i]) == Ok(vs[i]) <==> Replayable(vs[i]) {
        ReplayExactly(utf8, vs[i]);
      }
      if Replayable(m) {
        ReplayValues(utf8, vs);
      } else if Replay(utf8, m) == Ok(m) {
        forall i | 0 <= i < |vs| ensures Replayable(vs[i]) {
          ReplayValueAt(utf8, vs, i);
        }
      }
    case _ => ReplayLeaf(utf8, m);
  }

  lemma ReplayMeta(utf8: Utf8, d: Meta)
    ensures Replay(utf8, MMeta(d)) == Ok(MMeta(d)) <==> ReplayMap(utf8, d) == Ok(d)
  {
  }

  lemma {:induction false} ReplayMapExactly(utf8: Utf8, m: Meta)
    ensures ReplayMap(utf8, m) == Ok(m) <==> ReplayableMap(m)
  {
    forall k | k in m.data ensures Replay(utf8, m.data[k]) == Ok(m.data[k]) <==> Replayable(m.data[k]) {
      ReplayExactly(utf8, m.data[k]);
    }
    if ReplayableMap(m) {
      ReplayEntries(utf8, m);
    } else if ReplayMap(utf8, m) == Ok(m) {
      forall k | k in m.data ensures Replayable(m.data[k]) {
        ReplayEntryAt(utf8, m, k);
      }
    }
  }

  /** Whatever the encoder writes is replayable. */
  lemma {:induction false} EncodedIsReplayable(utf8: Utf8, v: Zval)
    requires Encode(utf8, v).Ok?
    ensures Replayable(Encode(utf8, v).value)
  {
    match v
    case ZZmap(m) => EncodedMapIsReplayable(utf8, m);
    case ZZmaps(ms) =>
      forall i | 0 <= i < |ms| ensures ReplayableMap(EncodeMap(utf8, ms[i]).value) {
        EncodedMapIsReplayable(utf8, ms[i]);
      }
    case ZZvals(vs) =>
      forall i | 0 <= i < |vs| ensures Replayable(Encode(utf8, vs[i]).value) {
        EncodedIsReplayable(utf8, vs[i]);
      }
    case _ =>
  }

  lemma {:induction false} EncodedMapIsReplayable(utf8: Utf8, m: Zmap)
    requires EncodeMap(utf8, m).Ok?
    ensures ReplayableMap(EncodeMap(utf8, m).value)
  {
    forall k | k in m.items ensures Replayable(Encode(utf8, m.items[k]).value) {
      EncodedIsReplayable(utf8, m.items[k]);
    }
  }

  /** The receiver's tree stands for the same message as the sender's, lossy or not. */
  lemma ResendSame(utf8: Utf8, m: Zmap)
    requires ConvertibleMap(m)
    ensures var sent := EncodeMap(utf8, m);
            sent.Ok? && DecodeMap(sent.value).Ok? && EncodeMap(utf8, DecodeMap(sent.value).value) == sent
  {
    EncodeMapSucceeds(utf8, m);
    EncodedMapIsReplayable(utf8, m);
    ReplayMapExactly(utf8, EncodeMap(utf8, m).value);
  }

  // ---------------------------------------------------------------------------------------
  // Trees that survive the trip to a message and back
  // ---------------------------------------------------------------------------------------

  function RoundTrip(utf8: Utf8, v: Zval): Result<Zval> {
    match Encode(utf8, v) case Ok(m) => Decode(m) case Throw => Throw
  }

  function RoundTripMap(utf8: Utf8, m: Zmap): Result<Zmap> {
    match EncodeMap(utf8, m) case Ok(d) => DecodeMap(d) case Throw => Throw
  }

  predicate FitsInt32(x: int) { -0x8000_0000 <= x < 0x8000_0000 }
  predicate FitsWord32(x: int) { 0 <= x < 0x1_0000_0000 }

  /** A whole number in int32 range. */
  predicate IsInt32(x: real) { x == x.Floor as real && FitsInt32(x.Floor) }

  /** What the wire format carries unchanged. */
  ghost predicate Lossless(v: Zval) {
    match v
    case ZNone => false
    case ZOther => false
    case ZWord64(x) => FitsWord32(x)
    case ZInt64s(xs) => forall i :: 0 <= i < |xs| ==> FitsInt32(xs[i])
    case ZWord64s(xs) => forall i :: 0 <= i < |xs| ==> FitsWord32(xs[i])
    case ZFloats(xs) => forall i :: 0 <= i < |xs| ==> IsInt32(xs[i])
    case ZDoubles(xs) => forall i :: 0 <= i < |xs| ==> IsInt32(xs[i])
    case ZZmap(m) => LosslessMap(m)
    case ZZmaps(ms) => forall i :: 0 <= i < |ms| ==> LosslessMap(ms[i])
    case ZZvals(vs) => forall i :: 0 <= i < |vs| ==> Lossless(vs[i])
    case _ => true
  }

  ghost predicate LosslessMap(m: Zmap) {
    forall k :: k in m.items ==> k.CharKey? && Lossless(m.items[k])
  }

  function WholeOf(x: real): (n: Int32)
    requires IsInt32(x)
    ensures n as real == x
  {
    x.Floor
  }

  function Floors(xs: seq<real>): (r: seq<Int32>)
    requires forall i :: 0 <= i < |xs| ==> IsInt32(xs[i])
    ensures |r| == |xs| && forall i :: 0 <= i < |xs| ==> r[i] as real == xs[i]
  {
    seq(|xs|, i requires 0 <= i < |xs| => WholeOf(xs[i]))
  }

  /** The form in which a tree comes back: small integers widened, larger ones in 32 bits where they fit, wide strings
      as UTF-8. */
  function Normal(utf8: Utf8, v: Zval): Zval {
    match v
    case ZChar(x) => ZInt32(x)
    case ZByte(x) => ZWord32(x)
    case ZInt16(x) => ZInt32(x)
    case ZWord16(x) => ZWord32(x)
    case ZWord64(x) => if FitsWord32(x) then ZWord32(x) else v
    case ZWideStr(x) => ZCharStr(utf8(x))
    case ZZmap(m) => ZZmap(NormalMap(utf8, m))
    case ZChars(xs) => ZInt32s(xs)
    case ZBytes(xs) => ZWord32s(xs)
    case ZInt16s(xs) => ZInt32s(xs)
    case ZWord16s(xs) => ZWord32s(xs)
    case ZInt64s(xs) => if forall i :: 0 <= i < |xs| ==> FitsInt32(xs[i]) then ZInt32s(xs) else v
    case ZWord64s(xs) => if forall i :: 0 <= i < |xs| ==> FitsWord32(xs[i]) then ZWord32s(xs) else v
    case ZFloats(xs) => if forall i :: 0 <= i < |xs| ==> IsInt32(xs[i]) then ZInt32s(Floors(xs)) else v
    case ZDoubles(xs) => if forall i :: 0 <= i < |xs| ==> IsInt32(xs[i]) then ZInt32s(Floors(xs)) else v
    case ZWideStrs(xs) => ZCharStrs(Map(utf8, xs))
    case ZZmaps(ms) => ZZmaps(seq(|ms|, i requires 0 <= i < |ms| => NormalMap(utf8, ms[i])))
    case ZZvals(vs) => ZZvals(seq(|vs|, i requires 0 <= i < |vs| => Normal(utf8, vs[i])))
    case _ => v
  }

  function NormalMap(utf8: Utf8, m: Zmap): Zmap {
    Zmap(map k | k in m.items :: Normal(utf8, m.items[k]))
  }

  lemma LeafTwice(utf8: Utf8, v: Zval)
    requires !v.ZZmap? && !v.ZZmaps? && !v.ZZvals?
    ensures Normal(utf8, Normal(utf8, v)) == Normal(utf8, v)
  {
    hide NormalMap, WholeOf;
  }

  /** What is in normal form stays as it is. */
  lemma {:induction false} NormalTwice(utf8: Utf8, v: Zval)
    ensures Normal(utf8, Normal(utf8, v)) == Normal(utf8, v)
  {
    match v
    case ZZmap(m) => NormalMapTwice(utf8, m);
    case ZZmaps(ms) =>
      hide NormalMap;
      forall i | 0 <= i < |ms| ensures NormalMap(utf8, NormalMap(utf8, ms[i])) == NormalMap(utf8, ms[i]) {
        NormalMapTwice(utf8, ms[i]);
      }
    case ZZvals(vs) =>
      forall i | 0 <= i < |vs| ensures Normal(utf8, Normal(utf8, vs[i])) == Normal(utf8, vs[i]) {
        NormalTwice(utf8, vs[i]);
      }
    case _ => LeafTwice(utf8, v);
  }

  lemma {:induction false} NormalMapTwice(utf8: Utf8, m: Zmap)
    ensures NormalMap(utf8, NormalMap(utf8, m)) == NormalMap(utf8, m)
  {
    forall k | k in m.items ensures Normal(utf8, Normal(utf8, m.items[k])) == Normal(utf8, m.items[k]) {
      NormalTwice(utf8, m.items[k]);
    }
  }

  function Reals(xs: seq<int>): (r: seq<real>)
    ensures |r| == |xs| && forall i :: 0 <= i < |xs| ==> r[i] == xs[i] as real
  {
    seq(|xs|, i requires 0 <= i < |xs| => xs[i] as real)
  }

  /** The value of a number of whatever type. */
  function NumberOf(v: Zval): Option<real> {
    match v
    case ZChar(x) => Some(x as real)
    case ZByte(x) => Some(x as real)
    case ZInt16(x) => Some(x as real)
    case ZWord16(x) => Some(x as real)
    case ZInt32(x) => Some(x as real)
    case ZWord32(x) => Some(x as real)
    case ZInt64(x) => Some(x as real)
    case ZWord64(x) => Some(x as real)
    case ZFloat(x) => Some(x)
    case ZDouble(x) => Some(x)
    case _ => None
  }

  function IntsOf(v: Zval): Option<seq<int>> {
    match v
    case ZChars(xs) => Some(xs)
    case ZBytes(xs) => Some(xs)
    case ZInt16s(xs) => Some(xs)
    case ZWord16s(xs) => Some(xs)
    case ZInt32s(xs) => Some(xs)
    case ZWord32s(xs) => Some(xs)
    case ZInt64s(xs) => Some(xs)
    case ZWord64s(xs) => Some(xs)
    case _ => None
  }

  function NumbersOf(v: Zval): Option<seq<real>> {
    match v
    case ZFloats(xs) => Some(xs)
    case ZDoubles(xs) => Some(xs)
    case _ => (match IntsOf(v) case Some(xs) => Some(Reals(xs)) case None => None)
  }

  /** `w` is `v` with every number unchanged, whatever its width, and wide strings as UTF-8. */
  ghost predicate Agrees(utf8: Utf8, v: Zval, w: Zval) {
    if NumberOf(v).Some? then NumberOf(w) == NumberOf(v)
    else if NumbersOf(v).Some? then NumbersOf(w) == NumbersOf(v)
    else
      match v
      case ZBool(_) => w == v
      case ZCharStr(_) => w == v
      case ZWideStr(x) => w == ZCharStr(utf8(x))
      case ZCharStrs(_) => w == v
      case ZWideStrs(xs) => w == ZCharStrs(Map(utf8, xs))
      case ZZmap(m) => w.ZZmap? && AgreesMap(utf8, m, w.m)
      case ZZmaps(ms) => w.ZZmaps? && |w.ms| == |ms| && forall i :: 0 <= i < |ms| ==> AgreesMap(utf8, ms[i], w.ms[i])
      case ZZvals(vs) => w.ZZvals? && |w.vs| == |vs| && forall i :: 0 <= i < |vs| ==> Agrees(utf8, vs[i], w.vs[i])
      case _ => false
  }

  ghost predicate AgreesMap(utf8: Utf8, m: Zmap, n: Zmap) {
    m.items.Keys == n.items.Keys && forall k :: k in m.items ==> Agrees(utf8, m.items[k], n.items[k])
  }

  lemma FloorsAreReals(xs: seq<real>)
    ensures (forall i :: 0 <= i < |xs| ==> IsInt32(xs[i])) ==> Reals(Floors(xs)) == xs
  {
  }

  lemma FloatsAgree(utf8: Utf8, v: Zval)
    requires v.ZFloats? || v.ZDoubles?
    ensures Agrees(utf8, v, Normal(utf8, v))
  {
    hide Floors;
    FloorsAreReals(if v.ZFloats? then v.fs else v.ds);
  }

  lemma IntsAgree(utf8: Utf8, v: Zval)
    requires IntsOf(v).Some?
    ensures Agrees(utf8, v, Normal(utf8, v))
  {
    hide NormalMap, AgreesMap, Floors, Reals;
    assert IntsOf(Normal(utf8, v)) == IntsOf(v);
  }

  lemma LeafAgrees(utf8: Utf8, v: Zval)
    requires !v.ZZmap? && !v.ZZmaps? && !v.ZZvals? && Convertible(v)
    ensures Agrees(utf8, v, Normal(utf8, v))
  {
    hide NormalMap, AgreesMap, ConvertibleMap, Floors, Reals, NumbersOf;
    if v.ZFloats? || v.ZDoubles? {
      FloatsAgree(utf8, v);
    } else if IntsOf(v).Some? {
      IntsAgree(utf8, v);
    } else {
      assert NumbersOf(v) == None by { NoNumbers(v); }
    }
  }

  lemma NoNumbers(v: Zval)
    requires !v.ZFloats? && !v.ZDoubles?
    ensures NumbersOf(v).Some? <==> IntsOf(v).Some?
  {
  }

  /** The normal form has the same numbers and strings. */
  lemma {:induction false} NormalAgrees(utf8: Utf8, v: Zval)
    requires Convertible(v)
    ensures Agrees(utf8, v, Normal(utf8, v))
  {
    hide NormalMap, AgreesMap, ConvertibleMap;
    match v
    case ZZmap(m) => NormalMapAgrees(utf8, m);
    case ZZmaps(ms) =>
      forall i | 0 <= i < |ms| ensures AgreesMap(utf8, ms[i], NormalMap(utf8, ms[i])) {
        NormalMapAgrees(utf8, ms[i]);
      }
    case ZZvals(vs) =>
      forall i | 0 <= i < |vs| ensures Agrees(utf8, vs[i], Normal(utf8, vs[i])) {
        NormalAgrees(utf8, vs[i]);
      }
    case _ => LeafAgrees(utf8, v);
  }

  lemma {:induction false} NormalMapAgrees(utf8: Utf8, m: Zmap)
    requires ConvertibleMap(m)
    ensures AgreesMap(utf8, m, NormalMap(utf8, m))
  {
    forall k | k in m.items ensures Agrees(utf8, m.items[k], Normal(utf8, m.items[k])) {
      NormalAgrees(utf8, m.items[k]);
    }
  }

  ghost predicate Survives(utf8: Utf8, v: Zval) {
    RoundTrip(utf8, v) == Ok(Normal(utf8, v))
  }

  ghost predicate SurvivesMap(utf8: Utf8, m: Zmap) {
    RoundTripMap(utf8, m) == Ok(NormalMap(utf8, m))
  }

  lemma TruncateExactly(x: real)
    ensures Narrow32(Truncate(x)) as real == x <==> IsInt32(x)
  {
  }

  lemma NarrowExactly(xs: seq<int>)
    ensures NarrowAll(xs) == xs <==> forall i :: 0 <= i < |xs| ==> FitsInt32(xs[i])
  {
  }

  lemma NarrowWordExactly(xs: seq<int>)
    ensures NarrowWords(xs) == xs <==> forall i :: 0 <= i < |xs| ==> FitsWord32(xs[i])
  {
  }

  lemma FloorsAreNarrowed(xs: seq<real>)
    requires forall i :: 0 <= i < |xs| ==> IsInt32(xs[i])
    ensures NarrowReals(xs) == Floors(xs)
  {
    forall i | 0 <= i < |xs| ensures NarrowReals(xs)[i] == Floors(xs)[i] {
      assert IsInt32(xs[i]);
      TruncateExactly(xs[i]);
    }
  }

  /** The kinds whose elements are narrowed. */
  lemma NarrowedSurvives(utf8: Utf8, v: Zval)
    requires v.ZWord64? || v.ZInt64s? || v.ZWord64s?
    ensures Survives(utf8, v) <==> Lossless(v)
  {
    hide EncodeMap, DecodeMap, NormalMap, LosslessMap;
    match v
    case ZWord64(x) => assert RoundTrip(utf8, v) == Ok(ZWord32(NarrowWord32(x)));
    case ZInt64s(xs) =>
      NarrowExactly(xs);
      assert RoundTrip(utf8, v) == Ok(ZInt32s(NarrowAll(xs)));
    case ZWord64s(xs) =>
      NarrowWordExactly(xs);
      assert RoundTrip(utf8, v) == Ok(ZWord32s(NarrowWords(xs)));
  }

  lemma TruncatedSurvives(utf8: Utf8, v: Zval)
    requires v.ZFloats? || v.ZDoubles?
    ensures Survives(utf8, v) <==> Lossless(v)
  {
    hide EncodeMap, DecodeMap, NormalMap, LosslessMap, Floors, NarrowReals, IsInt32;
    var xs := if v.ZFloats? then v.fs else v.ds;
    if Lossless(v) {
      FloorsAreNarrowed(xs);
    }
    assert RoundTrip(utf8, v) == Ok(ZInt32s(NarrowReals(xs)));
  }

  lemma LeafSurvives(utf8: Utf8, v: Zval)
    requires !v.ZZmap? && !v.ZZmaps? && !v.ZZvals?
    ensures Survives(utf8, v) <==> Lossless(v)
  {
    hide Encode, Decode, Survives, Lossless;
    match v
    case ZWord64(_) => NarrowedSurvives(utf8, v);
    case ZInt64s(_) => NarrowedSurvives(utf8, v);
    case ZWord64s(_) => NarrowedSurvives(utf8, v);
    case ZFloats(_) => TruncatedSurvives(utf8, v);
    case ZDoubles(_) => TruncatedSurvives(utf8, v);
    case _ => PlainSurvives(utf8, v);
  }

  /** The kinds that always survive, and those that are refused. */
  lemma PlainSurvives(utf8: Utf8, v: Zval)
    requires !v.ZZmap? && !v.ZZmaps? && !v.ZZvals?
    requires !v.ZWord64? && !v.ZInt64s? && !v.ZWord64s? && !v.ZFloats? && !v.ZDoubles?
    ensures Survives(utf8, v) <==> Lossless(v)
  {
    hide EncodeMap, DecodeMap, NormalMap, LosslessMap;
  }

  /** A tree comes back in its normal form, with every number unchanged, exactly when it is lossless. */
  lemma {:induction false} SurvivesExactly(utf8: Utf8, v: Zval)
    ensures Survives(utf8, v) <==> Lossless(v)
  {
    hide Encode, Decode, RoundTrip, Survives;
    match v
    case ZZmap(m) =>
      MapSurvivesExactly(utf8, m);
      MapSurvives(utf8, m);
    case ZZmaps(ms) => MapsSurviveExactly(utf8, ms);
    case ZZvals(vs) => ValuesSurviveExactly(utf8, vs);
    case _ => LeafSurvives(utf8, v);
  }

  lemma MapSurvives(utf8: Utf8, m: Zmap)
    ensures Survives(utf8, ZZmap(m)) <==> SurvivesMap(utf8, m)
  {
    hide EncodeMap, DecodeMap, NormalMap;
    assert Normal(utf8, ZZmap(m)) == ZZmap(NormalMap(utf8, m));
  }

  lemma {:induction false} ValuesSurviveExactly(utf8: Utf8, vs: seq<Zval>)
    ensures Survives(utf8, ZZvals(vs)) <==> forall i :: 0 <= i < |vs| ==> Lossless(vs[i])
    decreases vs, 1
  {
    forall i | 0 <= i < |vs| ensures Survives(utf8, vs[i]) <==> Lossless(vs[i]) {
      SurvivesExactly(utf8, vs[i]);
    }
    if Survives(utf8, ZZvals(vs)) {
      forall i | 0 <= i < |vs| ensures Survives(utf8, vs[i]) {
        SurviveValueAt(utf8, vs, i);
      }
    } else if forall i :: 0 <= i < |vs| ==> Survives(utf8, vs[i]) {
      SurviveValues(utf8, vs);
    }
  }

  lemma SurviveValueAt(utf8: Utf8, vs: seq<Zval>, i: nat)
    requires Survives(utf8, ZZvals(vs)) && i < |vs|
    ensures Survives(utf8, vs[i])
  {
    var sent := Encode(utf8, ZZvals(vs)).value;
    assert Encode(utf8, vs[i]) == Ok(sent.vs[i]);
    assert Decode(sent).value.vs[i] == Normal(utf8, ZZvals(vs)).vs[i];
  }

  lemma SurviveValues(utf8: Utf8, vs: seq<Zval>)
    requires forall i :: 0 <= i < |vs| ==> Survives(utf8, vs[i])
    ensures Survives(utf8, ZZvals(vs))
  {
    assert forall i :: 0 <= i < |vs| ==> Encode(utf8, vs[i]).Ok?;
    var sent := Encode(utf8, ZZvals(vs)).value;
    forall i | 0 <= i < |vs| ensures Decode(sent.vs[i]) == Ok(Normal(utf8, vs[i])) {
      assert Survives(utf8, vs[i]);
    }
    assert Decode(sent).value.vs == Normal(utf8, ZZvals(vs)).vs;
  }

  lemma {:induction false} MapsSurviveExactly(utf8: Utf8, ms: seq<Zmap>)
    ensures Survives(utf8, ZZmaps(ms)) <==> forall i :: 0 <= i < |ms| ==> LosslessMap(ms[i])
    decreases ms, 1
  {
    hide Survives, SurvivesMap;
    forall i | 0 <= i < |ms| ensures SurvivesMap(utf8, ms[i]) <==> LosslessMap(ms[i]) {
      MapSurvivesExactly(utf8, ms[i]);
    }
    if Survives(utf8, ZZmaps(ms)) {
      forall i | 0 <= i < |ms| ensures SurvivesMap(utf8, ms[i]) {
        SurviveMapAt(utf8, ms, i);
      }
    } else if forall i :: 0 <= i < |ms| ==> SurvivesMap(utf8, ms[i]) {
      SurviveMaps(utf8, ms);
    }
  }

  lemma SurviveMapAt(utf8: Utf8, ms: seq<Zmap>, i: nat)
    requires Survives(utf8, ZZmaps(ms)) && i < |ms|
    ensures SurvivesMap(utf8, ms[i])
  {
    hide EncodeMap, DecodeMap, NormalMap;
    var sent := Encode(utf8, ZZmaps(ms)).value;
    assert EncodeMap(utf8, ms[i]) == Ok(sent.ms[i]);
    assert Decode(sent).value.ms[i] == Normal(utf8, ZZmaps(ms)).ms[i];
  }

  lemma SurviveMaps(utf8: Utf8, ms: seq<Zmap>)
    requires forall i :: 0 <= i < |ms| ==> SurvivesMap(utf8, ms[i])
    ensures Survives(utf8, ZZmaps(ms))
  {
    hide EncodeMap, DecodeMap, NormalMap;
    assert forall i :: 0 <= i < |ms| ==> EncodeMap(utf8, ms[i]).Ok?;
    var sent := Encode(utf8, ZZmaps(ms)).value;
    forall i | 0 <= i < |ms| ensures DecodeMap(sent.ms[i]) == Ok(NormalMap(utf8, ms[i])) {
      assert SurvivesMap(utf8, ms[i]);
    }
    assert Decode(sent).value.ms == Normal(utf8, ZZmaps(ms)).ms;
  }

  lemma EncodableMap(utf8: Utf8, m: Zmap)
    requires forall k :: k in m.items ==> k.CharKey? && Survives(utf8, m.items[k])
    ensures EncodeMap(utf8, m).Ok?
  {
  }

  lemma SurviveEntries(utf8: Utf8, m: Zmap)
    requires forall k :: k in m.items ==> k.CharKey? && Survives(utf8, m.items[k])
    ensures SurvivesMap(utf8, m)
  {
    hide Normal, Encode, Decode, EncodeMap, DecodeMap;
    EncodableMap(utf8, m);
    EncodedMap(utf8, m);
    var d := EncodeMap(utf8, m).value;
    forall s | s in d.data ensures Decode(d.data[s]) == Ok(Normal(utf8, m.items[CharKey(s)])) {
      assert Survives(utf8, m.items[CharKey(s)]);
    }
    DecodedMap(d);
    assert DecodeMap(d).value.items == NormalMap(utf8, m).items;
  }

  lemma SurviveEntryAt(utf8: Utf8, m: Zmap, k: Key)
    requires SurvivesMap(utf8, m) && k in m.items
    ensures k.CharKey? && Survives(utf8, m.items[k])
  {
    hide Normal, Encode, Decode, EncodeMap, DecodeMap;
    EncodedMap(utf8, m);
    var d := EncodeMap(utf8, m).value;
    DecodableMap(d);
    DecodedMap(d);
    assert DecodeMap(d).value.items[k] == NormalMap(utf8, m).items[k];
  }

  lemma DecodableMap(d: Meta)
    requires DecodeMap(d).Ok?
    ensures forall k :: k in d.data ==> Decode(d.data[k]).Ok?
  {
  }

  lemma {:induction false} MapSurvivesExactly(utf8: Utf8, m: Zmap)
    ensures SurvivesMap(utf8, m) <==> LosslessMap(m)
  {
    hide SurvivesMap, Survives;
    forall k | k in m.items ensures Survives(utf8, m.items[k]) <==> Lossless(m.items[k]) {
      SurvivesExactly(utf8, m.items[k]);
    }
    if LosslessMap(m) {
      SurviveEntries(utf8, m);
    } else if SurvivesMap(utf8, m) {
      forall k | k in m.items ensures k.CharKey? && Lossless(m.items[k]) {
        SurviveEntryAt(utf8, m, k);
      }
    }
  }

  /** The normal form of a lossless zmap stands for the same message. */
  lemma NormalEncodes(utf8: Utf8, m: Zmap)
    requires LosslessMap(m)
    ensures EncodeMap(utf8, m).Ok? && EncodeMap(utf8, NormalMap(utf8, m)) == EncodeMap(utf8, m)
  {
    hide EncodeMap, DecodeMap, NormalMap;
    MapSurvivesExactly(utf8, m);
    EncodeMapSucceeds(utf8, m);
    ResendSame(utf8, m);
  }

  // ---------------------------------------------------------------------------------------
  // The converters, which append to their output in loops
  // ---------------------------------------------------------------------------------------

  /** `out.add_value( Element( element ) )` for every element. */
  method AddValues<T, U>(element: T -> U, src: seq<T>) returns (out: seq<U>)
    ensures out == Map(element, src)
  {
    out := [];
    for i := 0 to |src|
      invariant out == Map(element, src[..i])
    {
      out := out + [element(src[i])];
    }
    assert src[..|src|] == src;
  }

  /** Whatever the width of the numbers, their array goes out as an array of int32. */
  method ConvertSigned(utf8: Utf8, src: Zval) returns (out: Result<MetaValue>)
    requires src.ZChars? || src.ZInt16s? || src.ZInt32s? || src.ZInt64s? || src.ZFloats? || src.ZDoubles?
    ensures out == Encode(utf8, src)
  {
    hide EncodeMap, Truncate;
    var ys;
    match src {
      case ZChars(xs) => ys := AddValues((x: Int8) => Narrow32(x), xs);
      case ZInt16s(xs) => ys := AddValues((x: Int16) => Narrow32(x), xs);
      case ZInt32s(xs) => ys := AddValues((x: Int32) => Narrow32(x), xs);
      case ZInt64s(xs) => ys := AddValues((x: Int64) => Narrow32(x), xs);
      case ZFloats(xs) => ys := AddValues((x: real) => Narrow32(Truncate(x)), xs);
      case ZDoubles(xs) => ys := AddValues((x: real) => Narrow32(Truncate(x)), xs);
    }
    assert ys == Encode(utf8, src).value.i32s;
    out := Ok(MInt32s(ys));
  }

  method ConvertUnsigned(utf8: Utf8, src: Zval) returns (out: Result<MetaValue>)
    requires src.ZBytes? || src.ZWord16s? || src.ZWord32s? || src.ZWord64s?
    ensures out == Encode(utf8, src)
  {
    hide EncodeMap;
    var ys;
    match src {
      case ZBytes(xs) => ys := AddValues((x: Word8) => NarrowWord32(x), xs);
      case ZWord16s(xs) => ys := AddValues((x: Word16) => NarrowWord32(x), xs);
      case ZWord32s(xs) => ys := AddValues((x: Word32) => NarrowWord32(x), xs);
      case ZWord64s(xs) => ys := AddValues((x: Word64) => NarrowWord32(x), xs);
    }
    assert ys == Encode(utf8, src).value.u32s;
    out := Ok(MUint32s(ys));
  }

  method ConvertStrings(utf8: Utf8, src: Zval) returns (out: Result<MetaValue>)
    requires src.ZCharStrs? || src.ZWideStrs?
    ensures out == Encode(utf8, src)
  {
    hide EncodeMap;
    var ys;
    match src {
      case ZCharStrs(xs) => ys := AddValues((x: string) => x, xs);
      case ZWideStrs(xs) => ys := AddValues(utf8, xs);
    }
    assert ys == Encode(utf8, src).value.ss;
    out := Ok(MStrings(ys));
  }

  /** The values that are no arrays and no zmaps. */
  method ConvertScalar(utf8: Utf8, src: Zval) returns (out: Result<MetaValue>)
    requires !src.ZZmap? && !src.ZZmaps? && !src.ZZvals? && !src.ZCharStrs? && !src.ZWideStrs?
    requires !src.ZChars? && !src.ZInt16s? && !src.ZInt32s? && !src.ZInt64s? && !src.ZFloats? && !src.ZDoubles?
    requires !src.ZBytes? && !src.ZWord16s? && !src.ZWord32s? && !src.ZWord64s?
    ensures out == Encode(utf8, src)
  {
    hide EncodeMap;
    match src
    case ZChar(x) => out := Ok(MInt32(x));
    case ZByte(x) => out := Ok(MUint32(x));
    case ZInt16(x) => out := Ok(MInt32(x));
    case ZWord16(x) => out := Ok(MUint32(x));
    case ZInt32(x) => out := Ok(MInt32(x));
    case ZWord32(x) => out := Ok(MUint32(x));
    case ZInt64(x) => out := Ok(MInt64(x));
    case ZWord64(x) => out := Ok(MUint32(NarrowWord32(x)));
    case ZFloat(x) => out := Ok(MFloat(x));
    case ZDouble(x) => out := Ok(MDouble(x));
    case ZBool(x) => out := Ok(MBool(x));
    case ZCharStr(x) => out := Ok(MString(x));
    case ZWideStr(x) => out := Ok(MString(utf8(x)));
    case _ => out := Throw;
  }

  method ConvertZval(utf8: Utf8, src: Zval) returns (out: Result<MetaValue>)
    ensures out == Encode(utf8, src)
    decreases src, 1
  {
    hide EncodeMap;
    match src
    case ZZmap(m) =>
      var d := ConvertZmap(utf8, m);
      out := if d.Ok? then Ok(MMeta(d.value)) else Throw;
    case ZZmaps(_) => out := ConvertZmaps(utf8, src);
    case ZZvals(_) => out := ConvertZvals(utf8, src);
    case ZChars(_) => out := ConvertSigned(utf8, src);
    case ZInt16s(_) => out := ConvertSigned(utf8, src);
    case ZInt32s(_) => out := ConvertSigned(utf8, src);
    case ZInt64s(_) => out := ConvertSigned(utf8, src);
    case ZFloats(_) => out := ConvertSigned(utf8, src);
    case ZDoubles(_) => out := ConvertSigned(utf8, src);
    case ZBytes(_) => out := ConvertUnsigned(utf8, src);
    case ZWord16s(_) => out := ConvertUnsigned(utf8, src);
    case ZWord32s(_) => out := ConvertUnsigned(utf8, src);
    case ZWord64s(_) => out := ConvertUnsigned(utf8, src);
    case ZCharStrs(_) => out := ConvertStrings(utf8, src);
    case ZWideStrs(_) => out := ConvertStrings(utf8, src);
    case _ => out := ConvertScalar(utf8, src);
  }

  method ConvertZvals(utf8: Utf8, src: Zval) returns (out: Result<MetaValue>)
    requires src.ZZvals?
    ensures out == Encode(utf8, src)
    decreases src, 0
  {
    hide Encode;
    var vs, ys := src.vs, [];
    for i := 0 to |vs|
      invariant |ys| == i && forall j :: 0 <= j < i ==> Encode(utf8, vs[j]) == Ok(ys[j])
    {
      var y := ConvertZval(utf8, vs[i]);
      if y.Throw? {
        EncodeValues(utf8, src, ys, i);
        return Throw;
      }
      ys := ys + [y.value];
    }
    EncodeValues(utf8, src, ys, |vs|);
    out := Ok(MValues(ys));
  }

  lemma EncodeValues(utf8: Utf8, src: Zval, ys: seq<MetaValue>, n: nat)
    requires src.ZZvals? && |ys| == n <= |src.vs| && forall j :: 0 <= j < n ==> Encode(utf8, src.vs[j]) == Ok(ys[j])
    ensures n == |src.vs| ==> Encode(utf8, src) == Ok(MValues(ys))
    ensures n < |src.vs| && Encode(utf8, src.vs[n]).Throw? ==> Encode(utf8, src) == Throw
  {
    if n == |src.vs| {
      assert Encode(utf8, src).value.vs == ys;
    }
  }

  method ConvertZmaps(utf8: Utf8, src: Zval) returns (out: Result<MetaValue>)
    requires src.ZZmaps?
    ensures out == Encode(utf8, src)
    decreases src, 0
  {
    hide Encode;
    var ms, ys := src.ms, [];
    for i := 0 to |ms|
      invariant |ys| == i && forall j :: 0 <= j < i ==> EncodeMap(utf8, ms[j]) == Ok(ys[j])
    {
      var y := ConvertZmap(utf8, ms[i]);
      if y.Throw? {
        EncodeMaps(utf8, src, ys, i);
        return Throw;
      }
      ys := ys + [y.value];
    }
    EncodeMaps(utf8, src, ys, |ms|);
    out := Ok(MMetas(ys));
  }

  lemma EncodeMaps(utf8: Utf8, src: Zval, ys: seq<Meta>, n: nat)
    requires src.ZZmaps? && |ys| == n <= |src.ms| && forall j :: 0 <= j < n ==> EncodeMap(utf8, src.ms[j]) == Ok(ys[j])
    ensures n == |src.ms| ==> Encode(utf8, src) == Ok(MMetas(ys))
    ensures n < |src.ms| && EncodeMap(utf8, src.ms[n]).Throw? ==> Encode(utf8, src) == Throw
  {
    hide EncodeMap;
    if n == |src.ms| {
      assert Encode(utf8, src).value.ms == ys;
    }
  }

  /** `todo` are the keys not yet visited, in whatever order the map yields them. */
  method ConvertZmap(utf8: Utf8, src: Zmap) returns (out: Result<Meta>)
    ensures out == EncodeMap(utf8, src)
    decreases src, 1
  {
    hide Encode;
    var todo, data := src.items.Keys, map[];
    while todo != {}
      invariant todo <= src.items.Keys
      invariant forall k :: k in src.items && k !in todo ==>
                  k.CharKey? && k.s in data && Encode(utf8, src.items[k]) == Ok(data[k.s])
      invariant forall s :: s in data ==> CharKey(s) in src.items && CharKey(s) !in todo
      decreases todo
    {
      var k :| k in todo;
      if !k.CharKey? {
        return Throw;
      }
      var y := ConvertZval(utf8, src.items[k]);
      if y.Throw? {
        return Throw;
      }
      data, todo := data[k.s := y.value], todo - {k};
    }
    assert EncodeMap(utf8, src).value.data == data;
    out := Ok(Meta(data));
  }

  /** `out.emplace_back( Element( element ) )` for every element of a plain array. */
  method TakeValues<T>(src: seq<T>) returns (out: seq<T>)
    ensures out == src
  {
    out := AddValues((x: T) => x, src);
  }

  /** The arrays of numbers and strings. */
  method ConvertPlainArray(src: MetaValue) returns (out: Result<Zval>)
    requires src.MInt32s? || src.MInt64s? || src.MUint32s? || src.MUint64s? || src.MFloats? || src.MDoubles?
             || src.MStrings?
    ensures out == Decode(src)
  {
    hide DecodeMap;
    match src
    case MInt32s(xs) => var ys := TakeValues(xs); out := Ok(ZInt32s(ys));
    case MInt64s(xs) => var ys := TakeValues(xs); out := Ok(ZInt64s(ys));
    case MUint32s(xs) => var ys := TakeValues(xs); out := Ok(ZWord32s(ys));
    case MUint64s(xs) => var ys := TakeValues(xs); out := Ok(ZWord64s(ys));
    case MFloats(xs) => var ys := TakeValues(xs); out := Ok(ZFloats(ys));
    case MDoubles(xs) => var ys := TakeValues(xs); out := Ok(ZDoubles(ys));
    case MStrings(xs) => var ys := TakeValues(xs); out := Ok(ZCharStrs(ys));
  }

  method ConvertMetaValue(src: MetaValue) returns (out: Result<Zval>)
    ensures out == Decode(src)
    decreases src, 1
  {
    hide DecodeMap;
    match src
    case MUnset => out := Throw;
    case MBool(x) => out := Ok(ZBool(x));
    case MInt32(x) => out := Ok(ZInt32(x));
    case MInt64(x) => out := Ok(ZInt64(x));
    case MUint32(x) => out := Ok(ZWord32(x));
    case MUint64(x) => out := Ok(ZWord64(x));
    case MFloat(x) => out := Ok(ZFloat(x));
    case MDouble(x) => out := Ok(ZDouble(x));
    case MString(x) => out := Ok(ZCharStr(x));
    case MMeta(m) =>
      var z := ConvertMeta(m);
      out := if z.Ok? then Ok(ZZmap(z.value)) else Throw;
    case MMetas(_) => out := ConvertMetas(src);
    case MValues(_) => out := ConvertValues(src);
    case _ => out := ConvertPlainArray(src);
  }

  method ConvertMetas(src: MetaValue) returns (out: Result<Zval>)
    requires src.MMetas?
    ensures out == Decode(src)
    decreases src, 0
  {
    hide DecodeMap;
    var ms, ys := src.ms, [];
    for i := 0 to |ms|
      invariant |ys| == i && forall j :: 0 <= j < i ==> DecodeMap(ms[j]) == Ok(ys[j])
    {
      var y := ConvertMeta(ms[i]);
      if y.Throw? {
        return Throw;
      }
      ys := ys + [y.value];
    }
    assert Decode(src).value.ms == ys;
    out := Ok(ZZmaps(ys));
  }

  method ConvertValues(src: MetaValue) returns (out: Result<Zval>)
    requires src.MValues?
    ensures out == Decode(src)
    decreases src, 0
  {
    hide DecodeMap;
    var vs, ys := src.vs, [];
    for i := 0 to |vs|
      invariant |ys| == i && forall j :: 0 <= j < i ==> Decode(vs[j]) == Ok(ys[j])
    {
      var y := ConvertMetaValue(vs[i]);
      if y.Throw? {
        return Throw;
      }
      ys := ys + [y.value];
    }
    assert Decode(src).value.vs == ys;
    out := Ok(ZZvals(ys));
  }

  method ConvertMeta(src: Meta) returns (out: Result<Zmap>)
    ensures out == DecodeMap(src)
    decreases src, 1
  {
    hide Decode;
    var todo, items := src.data.Keys, map[];
    while todo != {}
      invariant todo <= src.data.Keys
      invariant forall s :: s in src.data && s !in todo ==>
                  CharKey(s) in items && Decode(src.data[s]) == Ok(items[CharKey(s)])
      invariant forall k :: k in items ==> k.CharKey? && k.s in src.data && k.s !in todo
      decreases todo
    {
      var s :| s in todo;
      var y := ConvertMetaValue(src.data[s]);
      if y.Throw? {
        return Throw;
      }
      items, todo := items[CharKey(s) := y.value], todo - {s};
    }
    assert DecodeMap(src).value.items == items;
    out := Ok(Zmap(items));
  }
}
