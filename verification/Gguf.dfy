/** The GGUF header reader: key/value metadata with nested arrays, little-endian throughout. */
module Gguf {
  import opened Bytes
  import opened Wrappers

  const MAX_STRING_BYTES: nat := 64 * 1024 * 1024
  const MAX_ARRAY_LEN: nat := 64 * 1024 * 1024

  datatype Error = UnexpectedEof | NotGguf | StringTooLong | ArrayTooLong | UnknownType(t: nat) | MissingArchitecture

  // What the reader keeps of a value; arrays and floats are consumed only.
  datatype Val = U(n: nat) | I(i: int) | Str(s: seq<byte>) | Discarded

  datatype ModelInfo = ModelInfo(
    arch: seq<byte>, contextLength: Option<nat>, blockCount: Option<nat>, embeddingLength: Option<nat>,
    headCount: Option<nat>, headCountKv: Option<nat>, expertCount: nat, paramCount: Option<nat>, fileBytes: nat)

  type Meta = map<seq<byte>, Val>

  // ---------- scalar types ----------

  predicate IsScalar(t: nat) { t <= 7 || 10 <= t <= 12 }

  predicate IsFloat(t: nat) { t == 6 || t == 12 }

  predicate IsSigned(t: nat) { t == 1 || t == 3 || t == 5 || t == 11 }

  function Width(t: nat): nat
    requires IsScalar(t)
  {
    match t
    case 0 => 1
    case 1 => 1
    case 2 => 2
    case 3 => 2
    case 7 => 1
    case 10 => 8
    case 11 => 8
    case 12 => 8
    case _ => 4
  }

  // Two's complement reading of the raw bits.
  function Signed(raw: nat, w: nat): int
    requires raw < Pow256(w)
  {
    if raw >= (Pow256(w) + 1) / 2 then raw - Pow256(w) else raw
  }

  function ScalarVal(t: nat, raw: nat): Val
    requires IsScalar(t) && raw < Pow256(Width(t))
  {
    if IsFloat(t) then Discarded
    else if IsSigned(t) then I(Signed(raw, Width(t)))
    else U(raw)
  }

  // ---------- specification of the reader ----------

  // A value and the position just past it, or the error that ends the whole parse.
  datatype Read<+T> = Got(value: T, end: nat) | Bad(error: Error)

  function RdUint(data: seq<byte>, pos: nat, w: nat): (r: Read<nat>)
    requires pos <= |data|
    ensures r.Got? ==> r.end == pos + w <= |data| && r.value < Pow256(w)
  {
    if pos + w > |data| then Bad(UnexpectedEof)
    else
      FromLittleBound(data[pos..pos + w]);
      Got(FromLittle(data[pos..pos + w]), pos + w)
  }

  function RdString(data: seq<byte>, pos: nat): (r: Read<seq<byte>>)
    requires pos <= |data|
    ensures r.Got? ==> pos < r.end <= |data|
  {
    match RdUint(data, pos, 8)
    case Bad(e) => Bad(e)
    case Got(n, p) =>
      if n > MAX_STRING_BYTES then Bad(StringTooLong)
      else if p + n > |data| then Bad(UnexpectedEof)
      else Got(data[p..p + n], p + n)
  }

  function RdScalar(data: seq<byte>, pos: nat, t: nat): (r: Read<Val>)
    requires pos <= |data| && IsScalar(t)
    ensures r.Got? ==> pos < r.end <= |data|
  {
    match RdUint(data, pos, Width(t))
    case Bad(e) => Bad(e)
    case Got(raw, p) => Got(ScalarVal(t, raw), p)
  }

  function RdValue(data: seq<byte>, pos: nat, t: nat): (r: Read<Val>)
    requires pos <= |data|
    ensures r.Got? ==> pos < r.end <= |data|
    decreases |data| - pos, 0, 0
  {
    if IsScalar(t) then RdScalar(data, pos, t)
    else if t == 8 then
      match RdString(data, pos)
      case Bad(e) => Bad(e)
      case Got(s, p) => Got(Str(s), p)
    else if t == 9 then
      match RdUint(data, pos, 4) {
        case Bad(e) => Bad(e)
        case Got(elem, p) =>
          match RdUint(data, p, 8)
          case Bad(e) => Bad(e)
          case Got(len, q) => if len > MAX_ARRAY_LEN then Bad(ArrayTooLong) else SkipItems(data, q, elem, len)
      }
    else Bad(UnknownType(t))
  }

  function SkipItems(data: seq<byte>, pos: nat, elem: nat, count: nat): (r: Read<Val>)
    requires pos <= |data|
    ensures r.Got? ==> pos <= r.end <= |data|
    decreases |data| - pos, 1, count
  {
    if count == 0 then Got(Discarded, pos)
    else
      match RdValue(data, pos, elem)
      case Bad(e) => Bad(e)
      case Got(_, p) => SkipItems(data, p, elem, count - 1)
  }

  datatype Stored = Stored(key: seq<byte>, val: Val)

  function RdPair(data: seq<byte>, pos: nat): (r: Read<Stored>)
    requires pos <= |data|
    ensures r.Got? ==> pos < r.end <= |data|
  {
    match RdString(data, pos)
    case Bad(e) => Bad(e)
    case Got(key, p) =>
      match RdUint(data, p, 4)
      case Bad(e) => Bad(e)
      case Got(t, q) =>
        match RdValue(data, q, t)
        case Bad(e) => Bad(e)
        case Got(val, end) => Got(Stored(key, val), end)
  }

  // Arrays and floats leave an earlier value of the same key standing.
  function Inserted(meta: Meta, key: seq<byte>, val: Val): Meta {
    if val == Discarded then meta else meta[key := val]
  }

  function RdPairs(data: seq<byte>, pos: nat, count: nat, meta: Meta): (r: Read<Meta>)
    requires pos <= |data|
    ensures r.Got? ==> pos <= r.end <= |data|
    decreases count
  {
    if count == 0 then Got(meta, pos)
    else
      match RdPair(data, pos)
      case Bad(e) => Bad(e)
      case Got(pair, end) => RdPairs(data, end, count - 1, Inserted(meta, pair.key, pair.val))
  }

  lemma {:induction false} RdPairsStep(data: seq<byte>, pos: nat, n: nat, meta: Meta, p: Stored, end: nat)
    requires n > 0 && pos <= |data| && RdPair(data, pos) == Got(p, end)
    ensures RdPairs(data, pos, n, meta) == RdPairs(data, end, n - 1, Inserted(meta, p.key, p.val))
  {
  }

  lemma {:induction false} RdPairsStop(data: seq<byte>, pos: nat, n: nat, meta: Meta)
    requires n > 0 && pos <= |data|
    ensures RdPair(data, pos).Bad? ==> RdPairs(data, pos, n, meta) == Bad(RdPair(data, pos).error)
  {
  }

  function NumberOf(v: Option<Val>): Option<nat> {
    match v
    case Some(U(n)) => Some(n)
    case Some(I(i)) => if i >= 0 then Some(i) else None
    case _ => None
  }

  function Lookup(meta: Meta, key: seq<byte>): Option<Val> {
    if key in meta then Some(meta[key]) else None
  }

  function LookupIn(meta: Meta): seq<byte> -> Option<Val> {
    key => Lookup(meta, key)
  }

  function Field(look: seq<byte> -> Option<Val>, arch: seq<byte>, suffix: string): Option<nat> {
    NumberOf(look(arch + Ascii(suffix)))
  }

  function OrZero(o: Option<nat>): nat {
    match o
    case Some(n) => n
    case None => 0
  }

  // The planner's view of the metadata, whatever answers the lookups.
  function InfoFrom(look: seq<byte> -> Option<Val>, fileBytes: nat): Result<ModelInfo, Error> {
    match look(Ascii("general.architecture"))
    case Some(Str(arch)) =>
      Ok(ModelInfo(
           arch, Field(look, arch, ".context_length"), Field(look, arch, ".block_count"),
           Field(look, arch, ".embedding_length"), Field(look, arch, ".attention.head_count"),
           Field(look, arch, ".attention.head_count_kv"), OrZero(Field(look, arch, ".expert_count")),
           Field(look, [], "general.parameter_count"), fileBytes))
    case _ => Err(MissingArchitecture)
  }

  // The parsed header, and the position just past it.
  function Parse(data: seq<byte>, fileBytes: nat): Read<ModelInfo> {
    if 4 > |data| then Bad(UnexpectedEof)
    else if data[..4] != Ascii("GGUF") then Bad(NotGguf)
    else if RdUint(data, 4, 4).Bad? then Bad(UnexpectedEof)
    else if RdUint(data, 8, 8).Bad? then Bad(UnexpectedEof)
    else
      match RdUint(data, 16, 8)
      case Bad(e) => Bad(e)
      case Got(count, start) =>
        match RdPairs(data, start, count, map[])
        case Bad(e) => Bad(e)
        case Got(meta, end) =>
          match InfoFrom(LookupIn(meta), fileBytes)
          case Err(e) => Bad(e)
          case Ok(info) => Got(info, end)
  }

  // ---------- the reader ----------

  class Reader {
    const data: seq<byte>
    var pos: nat

    ghost predicate Valid()
      reads this
    {
      pos <= |data|
    }

    constructor (data: seq<byte>)
      ensures Valid() && this.data == data && pos == 0
    {
      this.data := data;
      pos := 0;
    }

    method ReadExact(n: nat) returns (r: Result<seq<byte>, Error>)
      requires Valid()
      modifies this
      ensures Valid()
      ensures r.Ok? <==> old(pos) + n <= |data|
      ensures r.Ok? ==> pos == old(pos) + n && r.value == data[old(pos)..pos]
      ensures r.Err? ==> r.error == UnexpectedEof
    {
      if n > |data| - pos {
        return Err(UnexpectedEof);
      }
      r := Ok(data[pos..pos + n]);
      pos := pos + n;
    }

    method ReadUint(w: nat) returns (r: Result<nat, Error>)
      requires Valid()
      modifies this
      ensures Valid()
      ensures r.Ok? ==> RdUint(data, old(pos), w) == Got(r.value, pos)
      ensures r.Err? ==> RdUint(data, old(pos), w) == Bad(r.error)
    {
      var b :- ReadExact(w);
      return Ok(FromLittle(b));
    }

    method ReadString() returns (r: Result<seq<byte>, Error>)
      requires Valid()
      modifies this
      ensures Valid()
      ensures r.Ok? ==> RdString(data, old(pos)) == Got(r.value, pos)
      ensures r.Err? ==> RdString(data, old(pos)) == Bad(r.error)
    {
      var n :- ReadUint(8);
      if n > MAX_STRING_BYTES {
        return Err(StringTooLong);
      }
      r := ReadExact(n);
    }

    method ReadValue(t: nat) returns (r: Result<Val, Error>)
      requires Valid()
      modifies this
      ensures Valid()
      ensures r.Ok? ==> RdValue(data, old(pos), t) == Got(r.value, pos)
      ensures r.Err? ==> RdValue(data, old(pos), t) == Bad(r.error)
      decreases |data| - pos, 0
    {
      ghost var start := pos;
      if IsScalar(t) {
        var raw :- ReadUint(Width(t));
        return Ok(ScalarVal(t, raw));
      }
      if t == 8 {
        var s :- ReadString();
        return Ok(Str(s));
      }
      if t != 9 {
        return Err(UnknownType(t));
      }
      var elem :- ReadUint(4);
      var len :- ReadUint(8);
      if len > MAX_ARRAY_LEN {
        return Err(ArrayTooLong);
      }
      ghost var whole := SkipItems(data, pos, elem, len);
      var i := 0;
      while i < len
        invariant i <= len && Valid() && start + 12 <= pos
        invariant SkipItems(data, pos, elem, len - i) == whole
      {
        var _ :- ReadValue(elem);
        i := i + 1;
      }
      return Ok(Discarded);
    }

    method ReadPair() returns (r: Result<Stored, Error>)
      requires Valid()
      modifies this
      ensures Valid()
      ensures r.Ok? ==> RdPair(data, old(pos)) == Got(r.value, pos)
      ensures r.Err? ==> RdPair(data, old(pos)) == Bad(r.error)
    {
      var key :- ReadString();
      var t :- ReadUint(4);
      var val :- ReadValue(t);
      return Ok(Stored(key, val));
    }

    // One pair into the map; an array or a float leaves the map as it is.
    method ReadInto(meta: Meta, ghost left: nat) returns (r: Result<Meta, Error>)
      requires Valid() && left > 0
      modifies this
      ensures Valid()
      ensures r.Ok? ==> RdPairs(data, old(pos), left, meta) == RdPairs(data, pos, left - 1, r.value)
      ensures r.Err? ==> RdPairs(data, old(pos), left, meta) == Bad(r.error)
    {
      ghost var before := pos;
      var got := ReadPair();
      RdPairsStop(data, before, left, meta);
      var pair :- got;
      RdPairsStep(data, before, left, meta, pair, pos);
      return Ok(if pair.val != Discarded then meta[pair.key := pair.val] else meta);
    }

    method ReadPairs(count: nat) returns (r: Result<Meta, Error>)
      requires Valid()
      modifies this
      ensures Valid()
      ensures r.Ok? ==> RdPairs(data, old(pos), count, map[]) == Got(r.value, pos)
      ensures r.Err? ==> RdPairs(data, old(pos), count, map[]) == Bad(r.error)
    {
      var meta: Meta := map[];
      var left := count;
      ghost var whole := RdPairs(data, pos, count, map[]);
      while left > 0
        invariant Valid()
        invariant RdPairs(data, pos, left, meta) == whole
      {
        var got := ReadInto(meta, left);
        if got.Err? {
          return got;
        }
        meta := got.value;
        left := left - 1;
      }
      return Ok(meta);
    }

    method ParseHeader(fileBytes: nat) returns (r: Result<ModelInfo, Error>)
      requires Valid() && pos == 0
      modifies this
      ensures Valid()
      ensures r.Ok? ==> Parse(data, fileBytes) == Got(r.value, pos)
      ensures r.Err? ==> Parse(data, fileBytes) == Bad(r.error)
    {
      var magic :- ReadExact(4);
      if magic != Ascii("GGUF") {
        return Err(NotGguf);
      }
      var _ :- ReadUint(4);
      var _ :- ReadUint(8);
      var count :- ReadUint(8);
      var meta :- ReadPairs(count);
      r := InfoFrom(LookupIn(meta), fileBytes);
    }
  }

  // ---------- the format ----------

  // A value as a writer of the format has it.
  datatype Value =
    | Scalar(t: nat, v: int)
    | Text(s: seq<byte>)
    | Array(elem: nat, items: seq<Value>)

  datatype Pair = Pair(key: seq<byte>, value: Value)

  function TypeOf(v: Value): nat {
    match v
    case Scalar(t, _) => t
    case Text(_) => 8
    case Array(_, _) => 9
  }

  predicate InRange(t: nat, v: int)
    requires IsScalar(t)
  {
    if IsSigned(t) then -(Pow256(Width(t)) / 2) <= v < Pow256(Width(t)) / 2
    else 0 <= v < Pow256(Width(t))
  }

  // An empty array may name any element type, even one that does not exist.
  predicate WellFormed(v: Value) {
    match v
    case Scalar(t, n) => IsScalar(t) && InRange(t, n)
    case Text(s) => |s| <= MAX_STRING_BYTES
    case Array(elem, items) =>
      && elem < 0x1_0000_0000 && |items| <= MAX_ARRAY_LEN
      && forall x | x in items :: WellFormed(x) && TypeOf(x) == elem
  }

  function EncodeText(s: seq<byte>): seq<byte> {
    Little(|s|, 8) + s
  }

  function RawBits(t: nat, v: int): nat
    requires IsScalar(t) && InRange(t, v)
  {
    if v < 0 then v + Pow256(Width(t)) else v
  }

  function Encode(v: Value): seq<byte>
    requires WellFormed(v)
  {
    match v
    case Scalar(t, n) => Little(RawBits(t, n), Width(t))
    case Text(s) => EncodeText(s)
    case Array(elem, items) => Little(elem, 4) + (Little(|items|, 8) + EncodeItems(items))
  }

  function EncodeItems(items: seq<Value>): seq<byte>
    requires forall x | x in items :: WellFormed(x)
  {
    if items == [] then [] else Encode(items[0]) + EncodeItems(items[1..])
  }

  ghost predicate KeysFit(pairs: seq<Pair>) {
    forall p | p in pairs :: |p.key| <= MAX_STRING_BYTES
  }

  function EncodePair(p: Pair): seq<byte>
    requires WellFormed(p.value)
  {
    EncodeText(p.key) + (Little(TypeOf(p.value), 4) + Encode(p.value))
  }

  function EncodePairs(pairs: seq<Pair>): seq<byte>
    requires forall p | p in pairs :: WellFormed(p.value)
  {
    if pairs == [] then [] else EncodePair(pairs[0]) + EncodePairs(pairs[1..])
  }

  function Header(version: nat, tensors: nat, pairs: seq<Pair>): seq<byte>
    requires forall p | p in pairs :: WellFormed(p.value)
  {
    Ascii("GGUF") + (Little(version, 4) + (Little(tensors, 8) + (Little(|pairs|, 8) + EncodePairs(pairs))))
  }

  // What survives of a value: integers exactly, text exactly, nothing of floats and arrays.
  function Kept(v: Value): Val
    requires WellFormed(v)
  {
    match v
    case Scalar(t, n) => if IsFloat(t) then Discarded else if IsSigned(t) then I(n) else U(n)
    case Text(s) => Str(s)
    case Array(_, _) => Discarded
  }

  // The last value written under the key that is neither a float nor an array.
  function Latest(pairs: seq<Pair>, key: seq<byte>): Option<Val>
    requires forall p | p in pairs :: WellFormed(p.value)
  {
    if pairs == [] then None
    else
      var p := pairs[|pairs| - 1];
      if p.key == key && Kept(p.value) != Discarded then Some(Kept(p.value))
      else Latest(pairs[..|pairs| - 1], key)
  }

  // ---------- round trip ----------

  lemma {:induction false} UintRead(data: seq<byte>, pos: nat, n: nat, w: nat)
    requires n < Pow256(w) && At(data, pos, Little(n, w))
    ensures RdUint(data, pos, w) == Got(n, pos + w)
  {
    LittleRoundTrip(n, w);
  }

  lemma {:induction false} TextRead(data: seq<byte>, pos: nat, s: seq<byte>)
    requires |s| <= MAX_STRING_BYTES && At(data, pos, EncodeText(s))
    ensures RdString(data, pos) == Got(s, pos + |EncodeText(s)|)
  {
    Widths();
    AtSplit(data, pos, Little(|s|, 8), s);
    UintRead(data, pos, |s|, 8);
  }

  lemma {:induction false} ScalarRead(data: seq<byte>, pos: nat, t: nat, v: int)
    requires IsScalar(t) && InRange(t, v) && At(data, pos, Little(RawBits(t, v), Width(t)))
    ensures RdScalar(data, pos, t) == Got(Kept(Scalar(t, v)), pos + Width(t))
  {
    Widths();
    UintRead(data, pos, RawBits(t, v), Width(t));
  }

  lemma {:induction false} ValueRead(data: seq<byte>, pos: nat, v: Value)
    requires WellFormed(v) && At(data, pos, Encode(v))
    ensures RdValue(data, pos, TypeOf(v)) == Got(Kept(v), pos + |Encode(v)|)
    decreases v, 1, 0
  {
    match v
    case Scalar(t, n) => ScalarRead(data, pos, t, n);
    case Text(s) => TextRead(data, pos, s);
    case Array(elem, items) =>
      Widths();
      var body := EncodeItems(items);
      AtSplit(data, pos, Little(elem, 4), Little(|items|, 8) + body);
      AtSplit(data, pos + 4, Little(|items|, 8), body);
      UintRead(data, pos, elem, 4);
      UintRead(data, pos + 4, |items|, 8);
      ItemsRead(data, pos + 12, elem, items, v);
  }

  lemma {:induction false} ItemsSplit(data: seq<byte>, pos: nat, items: seq<Value>)
    requires items != [] && (forall x | x in items :: WellFormed(x)) && At(data, pos, EncodeItems(items))
    ensures At(data, pos, Encode(items[0])) && At(data, pos + |Encode(items[0])|, EncodeItems(items[1..]))
    ensures |EncodeItems(items)| == |Encode(items[0])| + |EncodeItems(items[1..])|
  {
    SplitAs(data, pos, EncodeItems(items), Encode(items[0]), EncodeItems(items[1..]));
  }

  lemma {:induction false} SkipStep(data: seq<byte>, pos: nat, elem: nat, n: nat, val: Val, end: nat)
    requires n > 0 && pos <= |data| && RdValue(data, pos, elem) == Got(val, end)
    ensures SkipItems(data, pos, elem, n) == SkipItems(data, end, elem, n - 1)
  {
  }

  lemma {:induction false} ItemsRead(data: seq<byte>, pos: nat, elem: nat, items: seq<Value>, whole: Value)
    requires forall x | x in items :: x < whole && WellFormed(x) && TypeOf(x) == elem
    requires At(data, pos, EncodeItems(items))
    ensures SkipItems(data, pos, elem, |items|) == Got(Discarded, pos + |EncodeItems(items)|)
    decreases whole, 0, |items|
  {
    if items == [] {
    } else {
      assert items[0] in items;
      ItemsSplit(data, pos, items);
      var end := pos + |Encode(items[0])|;
      ValueRead(data, pos, items[0]);
      SkipStep(data, pos, elem, |items|, Kept(items[0]), end);
      assert forall x | x in items[1..] :: x in items;
      ItemsRead(data, end, elem, items[1..], whole);
    }
  }

  function StoredAll(meta: Meta, pairs: seq<Pair>): Meta
    requires forall p | p in pairs :: WellFormed(p.value)
    decreases pairs
  {
    if pairs == [] then meta else StoredAll(Inserted(meta, pairs[0].key, Kept(pairs[0].value)), pairs[1..])
  }

  lemma {:induction false} PairReadFrom(
    data: seq<byte>, pos: nat, key: seq<byte>, p: nat, t: nat, q: nat, val: Val, end: nat)
    requires pos <= p <= q <= |data|
    requires RdString(data, pos) == Got(key, p)
    requires RdUint(data, p, 4) == Got(t, q) && RdValue(data, q, t) == Got(val, end)
    ensures RdPair(data, pos) == Got(Stored(key, val), end)
  {
  }

  lemma {:induction false} PairSplit(data: seq<byte>, pos: nat, p: Pair)
    requires WellFormed(p.value) && At(data, pos, EncodePair(p))
    ensures var at := pos + |EncodeText(p.key)|;
            && At(data, pos, EncodeText(p.key)) && At(data, at, Little(TypeOf(p.value), 4))
            && At(data, at + 4, Encode(p.value)) && pos + |EncodePair(p)| == at + 4 + |Encode(p.value)|
  {
    var key, tag, val := EncodeText(p.key), Little(TypeOf(p.value), 4), Encode(p.value);
    AtSplit(data, pos, key, tag + val);
    AtSplit(data, pos + |key|, tag, val);
  }

  lemma {:induction false} TagRead(data: seq<byte>, pos: nat, v: Value)
    requires WellFormed(v) && At(data, pos, Little(TypeOf(v), 4))
    ensures RdUint(data, pos, 4) == Got(TypeOf(v), pos + 4)
  {
    Widths();
    UintRead(data, pos, TypeOf(v), 4);
  }

  lemma {:induction false} KeyAndTagRead(data: seq<byte>, pos: nat, key: seq<byte>, v: Value, at: nat)
    requires |key| <= MAX_STRING_BYTES && WellFormed(v)
    requires At(data, pos, EncodeText(key)) && at == pos + |EncodeText(key)| && At(data, at, Little(TypeOf(v), 4))
    ensures RdString(data, pos) == Got(key, at) && RdUint(data, at, 4) == Got(TypeOf(v), at + 4)
  {
    TextRead(data, pos, key);
    TagRead(data, at, v);
  }

  lemma {:induction false} PairReadAt(data: seq<byte>, pos: nat, key: seq<byte>, v: Value, at: nat, end: nat)
    requires |key| <= MAX_STRING_BYTES && WellFormed(v)
    requires At(data, pos, EncodeText(key)) && at == pos + |EncodeText(key)|
    requires At(data, at, Little(TypeOf(v), 4)) && At(data, at + 4, Encode(v)) && end == at + 4 + |Encode(v)|
    ensures RdPair(data, pos) == Got(Stored(key, Kept(v)), end)
  {
    KeyAndTagRead(data, pos, key, v, at);
    ValueRead(data, at + 4, v);
    PairReadFrom(data, pos, key, at, TypeOf(v), at + 4, Kept(v), end);
  }

  lemma {:induction false} PairRead(data: seq<byte>, pos: nat, p: Pair)
    requires |p.key| <= MAX_STRING_BYTES && WellFormed(p.value) && At(data, pos, EncodePair(p))
    ensures RdPair(data, pos) == Got(Stored(p.key, Kept(p.value)), pos + |EncodePair(p)|)
  {
    PairSplit(data, pos, p);
    PairReadAt(data, pos, p.key, p.value, pos + |EncodeText(p.key)|, pos + |EncodePair(p)|);
  }

  lemma {:induction false} SplitAs(data: seq<byte>, pos: nat, whole: seq<byte>, a: seq<byte>, b: seq<byte>)
    requires At(data, pos, whole) && whole == a + b
    ensures At(data, pos, a) && At(data, pos + |a|, b) && |whole| == |a| + |b|
  {
    AtSplit(data, pos, a, b);
  }

  lemma {:induction false} FirstPairSplit(data: seq<byte>, pos: nat, pairs: seq<Pair>)
    requires pairs != [] && (forall p | p in pairs :: WellFormed(p.value)) && At(data, pos, EncodePairs(pairs))
    ensures At(data, pos, EncodePair(pairs[0])) && At(data, pos + |EncodePair(pairs[0])|, EncodePairs(pairs[1..]))
    ensures |EncodePairs(pairs)| == |EncodePair(pairs[0])| + |EncodePairs(pairs[1..])|
  {
    SplitAs(data, pos, EncodePairs(pairs), EncodePair(pairs[0]), EncodePairs(pairs[1..]));
  }

  lemma {:induction false} FirstPairRead(data: seq<byte>, pos: nat, pairs: seq<Pair>)
    requires pairs != [] && KeysFit(pairs) && forall p | p in pairs :: WellFormed(p.value)
    requires At(data, pos, EncodePairs(pairs))
    ensures var p := pairs[0];
            && RdPair(data, pos) == Got(Stored(p.key, Kept(p.value)), pos + |EncodePair(p)|)
            && At(data, pos + |EncodePair(p)|, EncodePairs(pairs[1..]))
            && |EncodePairs(pairs)| == |EncodePair(p)| + |EncodePairs(pairs[1..])|
  {
    assert pairs[0] in pairs;
    FirstPairSplit(data, pos, pairs);
    PairRead(data, pos, pairs[0]);
  }

  lemma {:induction false} PairsStep(data: seq<byte>, pos: nat, pairs: seq<Pair>, meta: Meta, end: nat, next: Meta)
    requires pairs != [] && KeysFit(pairs) && forall p | p in pairs :: WellFormed(p.value)
    requires At(data, pos, EncodePairs(pairs))
    requires end == pos + |EncodePair(pairs[0])| && next == Inserted(meta, pairs[0].key, Kept(pairs[0].value))
    ensures At(data, end, EncodePairs(pairs[1..]))
    ensures RdPairs(data, pos, |pairs|, meta) == RdPairs(data, end, |pairs| - 1, next)
    ensures pos + |EncodePairs(pairs)| == end + |EncodePairs(pairs[1..])|
  {
    FirstPairRead(data, pos, pairs);
    RdPairsStep(data, pos, |pairs|, meta, Stored(pairs[0].key, Kept(pairs[0].value)), end);
  }

  lemma {:induction false} PairsRead(data: seq<byte>, pos: nat, pairs: seq<Pair>, meta: Meta)
    requires KeysFit(pairs) && forall p | p in pairs :: WellFormed(p.value)
    requires At(data, pos, EncodePairs(pairs))
    ensures RdPairs(data, pos, |pairs|, meta) == Got(StoredAll(meta, pairs), pos + |EncodePairs(pairs)|)
    decreases pairs
  {
    if pairs == [] {
    } else {
      var p, tail := pairs[0], pairs[1..];
      var end, next := pos + |EncodePair(p)|, Inserted(meta, p.key, Kept(p.value));
      PairsStep(data, pos, pairs, meta, end, next);
      PairsRead(data, end, tail, next);
    }
  }

  lemma {:induction false} StoredAllSnoc(meta: Meta, pairs: seq<Pair>)
    requires pairs != [] && forall p | p in pairs :: WellFormed(p.value)
    ensures var last := pairs[|pairs| - 1];
            StoredAll(meta, pairs) == Inserted(StoredAll(meta, pairs[..|pairs| - 1]), last.key, Kept(last.value))
    decreases pairs
  {
    if |pairs| == 1 {
    } else {
      StoredAllSnoc(Inserted(meta, pairs[0].key, Kept(pairs[0].value)), pairs[1..]);
      assert pairs[1..][..|pairs| - 2] == pairs[..|pairs| - 1][1..];
    }
  }

  lemma {:induction false} StoredIsLatest(pairs: seq<Pair>, key: seq<byte>)
    requires forall p | p in pairs :: WellFormed(p.value)
    ensures Lookup(StoredAll(map[], pairs), key) == Latest(pairs, key)
  {
    if pairs == [] {
    } else {
      StoredAllSnoc(map[], pairs);
      StoredIsLatest(pairs[..|pairs| - 1], key);
    }
  }

  lemma {:induction false} SameField(
    f: seq<byte> -> Option<Val>, g: seq<byte> -> Option<Val>, arch: seq<byte>, suffix: string)
    requires forall key :: f(key) == g(key)
    ensures Field(f, arch, suffix) == Field(g, arch, suffix)
  {
  }

  lemma {:induction false} SameLookupsSameInfo(f: seq<byte> -> Option<Val>, g: seq<byte> -> Option<Val>, fileBytes: nat)
    requires forall key :: f(key) == g(key)
    ensures InfoFrom(f, fileBytes) == InfoFrom(g, fileBytes)
  {
    forall arch, suffix ensures Field(f, arch, suffix) == Field(g, arch, suffix) {
      SameField(f, g, arch, suffix);
    }
  }

  function LatestIn(pairs: seq<Pair>): seq<byte> -> Option<Val>
    requires forall p | p in pairs :: WellFormed(p.value)
  {
    key => Latest(pairs, key)
  }

  // The planner's view of what was written, last value first.
  function LatestInfo(pairs: seq<Pair>, fileBytes: nat): Result<ModelInfo, Error>
    requires forall p | p in pairs :: WellFormed(p.value)
  {
    InfoFrom(LatestIn(pairs), fileBytes)
  }

  lemma {:induction false} HeaderRead(data: seq<byte>, version: nat, tensors: nat, pairs: seq<Pair>)
    requires version < 0x1_0000_0000 && tensors < 0x1_0000_0000_0000_0000 && |pairs| < 0x1_0000_0000_0000_0000
    requires forall p | p in pairs :: WellFormed(p.value)
    requires At(data, 0, Header(version, tensors, pairs))
    ensures At(data, 0, Ascii("GGUF")) && At(data, 24, EncodePairs(pairs))
    ensures RdUint(data, 4, 4) == Got(version, 8) && RdUint(data, 8, 8) == Got(tensors, 16)
    ensures RdUint(data, 16, 8) == Got(|pairs|, 24)
  {
    Widths();
    var body := EncodePairs(pairs);
    var c := Little(|pairs|, 8) + body;
    var b := Little(tensors, 8) + c;
    var a := Little(version, 4) + b;
    AtSplit(data, 0, Ascii("GGUF"), a);
    AtSplit(data, 4, Little(version, 4), b);
    AtSplit(data, 8, Little(tensors, 8), c);
    AtSplit(data, 16, Little(|pairs|, 8), body);
    UintRead(data, 4, version, 4);
    UintRead(data, 8, tensors, 8);
    UintRead(data, 16, |pairs|, 8);
  }

  /** Round trip: any header written to the format, with any bytes after it, parses to the last stored
      value of every field and consumes exactly the header; without an architecture it is refused. */
  lemma {:induction false} HeaderRoundTrip(
    version: nat, tensors: nat, pairs: seq<Pair>, rest: seq<byte>, fileBytes: nat)
    requires version < 0x1_0000_0000 && tensors < 0x1_0000_0000_0000_0000 && |pairs| < 0x1_0000_0000_0000_0000
    requires KeysFit(pairs) && forall p | p in pairs :: WellFormed(p.value)
    ensures var header := Header(version, tensors, pairs);
            Parse(header + rest, fileBytes) ==
            match LatestInfo(pairs, fileBytes)
            case Ok(info) => Got(info, |header|)
            case Err(e) => Bad(e)
  {
    var data := Header(version, tensors, pairs) + rest;
    HeaderRead(data, version, tensors, pairs);
    PairsRead(data, 24, pairs, map[]);
    forall key ensures Lookup(StoredAll(map[], pairs), key) == Latest(pairs, key) {
      StoredIsLatest(pairs, key);
    }
    SameLookupsSameInfo(LookupIn(StoredAll(map[], pairs)), LatestIn(pairs), fileBytes);
  }

  // ---------- field by field ----------

  // The number that a field gets from what was written under its key.
  ghost predicate Gives(written: Option<Val>, field: Option<nat>) {
    match written
    case Some(U(n)) => field == Some(n)
    case Some(I(i)) => if i >= 0 then field == Some(i) else field == None
    case _ => field == None
  }

  // The fields as they come from what was written, whatever answers for that.
  ghost predicate Describes(written: seq<byte> -> Option<Val>, arch: seq<byte>, m: ModelInfo) {
    && m.arch == arch
    && Gives(written(arch + Ascii(".context_length")), m.contextLength)
    && Gives(written(arch + Ascii(".block_count")), m.blockCount)
    && Gives(written(arch + Ascii(".embedding_length")), m.embeddingLength)
    && Gives(written(arch + Ascii(".attention.head_count")), m.headCount)
    && Gives(written(arch + Ascii(".attention.head_count_kv")), m.headCountKv)
    && (Gives(written(arch + Ascii(".expert_count")), Some(m.expertCount))
        || (Gives(written(arch + Ascii(".expert_count")), None) && m.expertCount == 0))
    && Gives(written(Ascii("general.parameter_count")), m.paramCount)
  }

  lemma {:induction false} InfoDescribes(written: seq<byte> -> Option<Val>, fileBytes: nat)
    ensures match written(Ascii("general.architecture"))
            case Some(Str(arch)) =>
              var r := InfoFrom(written, fileBytes);
              r.Ok? && Describes(written, arch, r.value) && r.value.fileBytes == fileBytes
            case _ => InfoFrom(written, fileBytes) == Err(MissingArchitecture)
  {
    assert [] + Ascii("general.parameter_count") == Ascii("general.parameter_count");
  }

  /** Every field of every header comes from the last value under its own key: the architecture under
      "general.architecture", without which the header is refused, the six counts under the name of the
      architecture, a dot and the name of the count, and the number of parameters under its general key. */
  lemma {:induction false} FieldsExactly(
    version: nat, tensors: nat, pairs: seq<Pair>, rest: seq<byte>, fileBytes: nat)
    requires version < 0x1_0000_0000 && tensors < 0x1_0000_0000_0000_0000 && |pairs| < 0x1_0000_0000_0000_0000
    requires KeysFit(pairs) && forall p | p in pairs :: WellFormed(p.value)
    ensures var (header, written) := (Header(version, tensors, pairs), LatestIn(pairs));
            var r := Parse(header + rest, fileBytes);
            match written(Ascii("general.architecture"))
            case Some(Str(arch)) =>
              r.Got? && r.end == |header| && Describes(written, arch, r.value) && r.value.fileBytes == fileBytes
            case _ => r == Bad(MissingArchitecture)
  {
    HeaderRoundTrip(version, tensors, pairs, rest, fileBytes);
    InfoDescribes(LatestIn(pairs), fileBytes);
  }

  /** Data that is too short for its fixed part, or does not start with the four magic bytes, is refused before
      anything else is looked at. */
  lemma {:induction false} StartExactly(data: seq<byte>, fileBytes: nat)
    ensures |data| < 4 ==> Parse(data, fileBytes) == Bad(UnexpectedEof)
    ensures |data| >= 4 && data[..4] != [0x47, 0x47, 0x55, 0x46] ==> Parse(data, fileBytes) == Bad(NotGguf)
    ensures 4 <= |data| < 24 && data[..4] == [0x47, 0x47, 0x55, 0x46] ==> Parse(data, fileBytes) == Bad(UnexpectedEof)
  {
    assert Ascii("GGUF") == [0x47, 0x47, 0x55, 0x46];
  }

  // ---------- the type table ----------

  /** The types by number: 0, 2, 4, 7 and 10 are unsigned, 1, 3, 5 and 11 two's complement, 6 and 12 floats that are
      skipped, 8 is text and 9 an array; any other number is refused. */
  lemma {:induction false} TypesExactly(data: seq<byte>, pos: nat, t: nat)
    requires pos <= |data|
    ensures var w: nat := if t in {0, 1, 7} then 1 else if t in {2, 3} then 2 else if t in {4, 5, 6} then 4 else 8;
            if t == 8 then
              RdValue(data, pos, t)
              == match RdString(data, pos) case Bad(e) => Bad(e) case Got(s, p) => Got(Str(s), p)
            else if t == 9 then
              RdValue(data, pos, t)
              == if pos + 12 > |data| then Bad(UnexpectedEof)
                 else if FromLittle(data[pos + 4..pos + 12]) > 0x400_0000 then Bad(ArrayTooLong)
                 else SkipItems(data, pos + 12, FromLittle(data[pos..pos + 4]), FromLittle(data[pos + 4..pos + 12]))
            else if t > 12 then RdValue(data, pos, t) == Bad(UnknownType(t))
            else if pos + w > |data| then RdValue(data, pos, t) == Bad(UnexpectedEof)
            else
              var raw := FromLittle(data[pos..pos + w]);
              var size := if w == 1 then 0x100 else if w == 2 then 0x1_0000 else if w == 4 then 0x1_0000_0000
                          else 0x1_0000_0000_0000_0000;
              RdValue(data, pos, t)
              == Got(if t in {6, 12} then Discarded
                     else if t !in {1, 3, 5, 11} then U(raw)
                     else if raw < size / 2 then I(raw)
                     else I(raw - size), pos + w)
  {
    Widths();
  }

  /** A text of up to 64 MiB is read as the bytes behind its length; a longer one is refused. */
  lemma {:induction false} TextExactly(data: seq<byte>, pos: nat)
    requires pos + 8 <= |data|
    ensures var n := FromLittle(data[pos..pos + 8]);
            RdString(data, pos)
            == if n > 0x400_0000 then Bad(StringTooLong)
               else if pos + 8 + n > |data| then Bad(UnexpectedEof)
               else Got(data[pos + 8..pos + 8 + n], pos + 8 + n)
  {
  }
}
