/** The managed-weights file: header length, header, then the arrays' bytes one after another. */
module ManagedWeights {
  import opened Options
  import opened Arith
  import opened Dictionaries

  type Byte = n: nat | n < 256

  datatype Dtype = F32 | F16 | BF16 | F8 | I64 | I32 | I8 | Other

  function ItemSize(d: Dtype): (n: nat)
    ensures n > 0
  {
    match d
    case F32 => 4
    case F16 => 2
    case BF16 => 2
    case F8 => 1
    case I64 => 8
    case I32 => 4
    case I8 => 1
    case Other => 1
  }

  function Volume(shape: seq<nat>): nat {
    if shape == [] then 1 else Volume(shape[..|shape| - 1]) * shape[|shape| - 1]
  }

  /** An array and its bytes in memory. */
  datatype Array = Array(dtype: Dtype, shape: seq<nat>, data: seq<Byte>)

  predicate Contiguous(a: Array) {
    |a.data| == Volume(a.shape) * ItemSize(a.dtype)
  }

  datatype Info = Info(dtype: Dtype, shape: seq<nat>, begin: nat, end: nat)

  /** A header value: what the writer records for a weight, or metadata, which may or may not read as such a record. */
  datatype Entry = Weight(info: Info) | Metadata(readsAs: Option<Info>)

  const METADATA := "__metadata__"

  type Header = Dict<Entry>

  // ----- Little-endian numbers -----

  function Power256(k: nat): nat {
    if k == 0 then 1 else 256 * Power256(k - 1)
  }

  function ToBytes(n: nat, k: nat): (bytes: seq<Byte>)
    ensures |bytes| == k
    decreases k
  {
    if k == 0 then [] else [n % 256] + ToBytes(n / 256, k - 1)
  }

  function FromBytes(bytes: seq<Byte>): nat {
    if bytes == [] then 0 else bytes[0] + 256 * FromBytes(bytes[1..])
  }

  /** A number that fits is read back from its little-endian bytes. */
  lemma {:induction false} BytesRoundTrip(n: nat, k: nat)
    requires n < Power256(k)
    ensures FromBytes(ToBytes(n, k)) == n
    decreases k
  {
    if k > 0 {
      BytesRoundTrip(n / 256, k - 1);
      assert ToBytes(n, k)[1..] == ToBytes(n / 256, k - 1);
    }
  }

  // ----- Writing -----

  function Data(weights: Dict<Array>): seq<Byte> {
    if weights == [] then [] else Data(weights[..|weights| - 1]) + weights[|weights| - 1].1.data
  }

  /** Where weight i begins: after the bytes of those before it. */
  function Begin(weights: Dict<Array>, i: nat): nat
    requires i <= |weights|
  {
    |Data(weights[..i])|
  }

  function InfoAt(weights: Dict<Array>, i: nat): Info
    requires i < |weights|
  {
    Info(weights[i].1.dtype, weights[i].1.shape, Begin(weights, i), Begin(weights, i + 1))
  }

  function HeaderStart(metadata: Option<Option<Info>>): Header {
    match metadata
    case None => []
    case Some(readsAs) => [(METADATA, Metadata(readsAs))]
  }

  function HeaderOf(weights: Dict<Array>, metadata: Option<Option<Info>>, n: nat): Header
    requires n <= |weights|
  {
    if n == 0 then HeaderStart(metadata)
    else Put(HeaderOf(weights, metadata, n - 1), weights[n - 1].0, Weight(InfoAt(weights, n - 1)))
  }

  predicate Writable(weights: Dict<Array>) {
    forall i :: 0 <= i < |weights| ==> Contiguous(weights[i].1) && weights[i].1.dtype != Other
  }

  const LENGTH_BYTES := 8

  function FileOf(header: seq<Byte>, data: seq<Byte>): seq<Byte> {
    ToBytes(|header|, LENGTH_BYTES) + header + data
  }

  /** Eight bytes that give the length of the text, least significant first, then the text, then the data. */
  predicate WellLaid(file: seq<Byte>, text: seq<Byte>, data: seq<Byte>) {
    && |file| == 8 + |text| + |data| && file[8..8 + |text|] == text && file[8 + |text|..] == data
    && |text| == file[0] as int + file[1] as int * 0x100 + file[2] as int * 0x1_0000 + file[3] as int * 0x100_0000
                 + file[4] as int * 0x1_0000_0000 + file[5] as int * 0x100_0000_0000 + file[6] as int * 0x1_0000_0000_0000
                 + file[7] as int * 0x100_0000_0000_0000
  }

  lemma LengthLimit()
    ensures Power256(LENGTH_BYTES) == 0x1_0000_0000_0000_0000
  {
    assert Power256(2) == 0x1_0000;
    assert Power256(4) == 0x1_0000_0000;
    assert Power256(6) == 0x1_0000_0000_0000;
  }

  lemma LengthBytes(n: nat)
    requires n < 0x1_0000_0000_0000_0000
    ensures var b := ToBytes(n, 8);
            n == b[0] as int + b[1] as int * 0x100 + b[2] as int * 0x1_0000 + b[3] as int * 0x100_0000
                 + b[4] as int * 0x1_0000_0000 + b[5] as int * 0x100_0000_0000 + b[6] as int * 0x1_0000_0000_0000
                 + b[7] as int * 0x100_0000_0000_0000
  {
    hide Power256;
    LengthLimit();
    BytesRoundTrip(n, 8);
    var b := ToBytes(n, 8);
    FromFront(b);
    FromFront(b[1..]);
    FromFront(b[1..][1..]);
    FromFour(b[0..4]);
    FromFour(b[4..8]);
    FromTwoHalves(b);
  }

  lemma FromFront(b: seq<Byte>)
    requires b != []
    ensures FromBytes(b) == b[0] as int + 256 * FromBytes(b[1..])
  {
  }

  lemma FromFour(b: seq<Byte>)
    requires |b| == 4
    ensures FromBytes(b) == b[0] as int + b[1] as int * 0x100 + b[2] as int * 0x1_0000 + b[3] as int * 0x100_0000
  {
    hide FromBytes;
    var c := b[1..];
    var d := c[1..];
    var e := d[1..];
    FromFront(b);
    FromFront(c);
    FromFront(d);
    FromFront(e);
    assert e[1..] == [];
    FromNothing();
  }

  lemma FromNothing()
    ensures FromBytes([]) == 0
  {
  }

  lemma FromTwoHalves(b: seq<Byte>)
    requires |b| == 8
    ensures FromBytes(b) == FromBytes(b[0..4]) + 0x1_0000_0000 * FromBytes(b[4..8])
  {
    hide FromBytes;
    var c, h := b, b[0..4];
    FromFront(c);
    FromFront(c[1..]);
    FromFront(c[1..][1..]);
    FromFront(c[1..][1..][1..]);
    assert c[1..][1..][1..][1..] == b[4..8];
    FromFour(h);
  }

  lemma LaidOut(text: seq<Byte>, data: seq<Byte>)
    ensures |text| < 0x1_0000_0000_0000_0000 ==> WellLaid(FileOf(text, data), text, data)
  {
    hide ToBytes;
    var len, file := ToBytes(|text|, LENGTH_BYTES), FileOf(text, data);
    assert |len| == 8;
    assert file[..8] == len && file[8..8 + |text|] == text && file[8 + |text|..] == data;
    assert forall i :: 0 <= i < 8 ==> file[i] == len[i];
    if |text| < 0x1_0000_0000_0000_0000 {
      LengthBytes(|text|);
    }
  }

  lemma BeginNext(weights: Dict<Array>, i: nat)
    requires i < |weights|
    ensures Begin(weights, i + 1) == Begin(weights, i) + |weights[i].1.data|
    ensures Data(weights[..i + 1]) == Data(weights[..i]) + weights[i].1.data
  {
    assert weights[..i + 1][..i] == weights[..i];
  }

  /** The header loop, which raises for a type it does not know. */
  method BuildHeader(weights: Dict<Array>, metadata: Option<Option<Info>>) returns (r: Option<Header>)
    requires forall i :: 0 <= i < |weights| ==> Contiguous(weights[i].1)
    ensures if Writable(weights) then r == Some(HeaderOf(weights, metadata, |weights|)) else r == None
  {
    hide Contiguous, Put, Begin, Volume;
    var header, begin := HeaderStart(metadata), 0;
    BeginFirst(weights);
    var i := 0;
    while i < |weights|
      invariant i <= |weights| && begin == Begin(weights, i)
      invariant header == HeaderOf(weights, metadata, i)
      invariant forall j :: 0 <= j < i ==> weights[j].1.dtype != Other
    {
      var (name, value) := weights[i];
      if value.dtype == Other {
        return None;
      }
      BeginNext(weights, i);
      SizeOf(value);
      var size := Volume(value.shape) * ItemSize(value.dtype);
      header := Put(header, name, Weight(Info(value.dtype, value.shape, begin, begin + size)));
      begin := begin + size;
      i := i + 1;
    }
    r := Some(header);
  }

  /** `serialize_managed_weights`; `None` when it raises. `encode` is the header's text. */
  method Serialize(weights: Dict<Array>, metadata: Option<Option<Info>>, encode: Header -> seq<Byte>)
    returns (file: Option<seq<Byte>>)
    requires forall i :: 0 <= i < |weights| ==> Contiguous(weights[i].1)
    ensures var text := encode(HeaderOf(weights, metadata, |weights|));
            if Writable(weights) && |text| < 0x1_0000_0000_0000_0000 then
              file == Some(FileOf(text, Data(weights))) && WellLaid(file.value, text, Data(weights))
            else file == None
  {
    hide Contiguous, Power256, HeaderOf, Writable, Data, ToBytes, WellLaid;
    LengthLimit();
    LaidOut(encode(HeaderOf(weights, metadata, |weights|)), Data(weights));
    var header := BuildHeader(weights, metadata);
    if header.None? {
      return None;
    }
    var text := encode(header.value);
    if |text| >= Power256(LENGTH_BYTES) {
      return None;
    }
    var out := WriteData(ToBytes(|text|, LENGTH_BYTES) + text, weights);
    file := Some(out);
  }

  method WriteData(head: seq<Byte>, weights: Dict<Array>) returns (out: seq<Byte>)
    ensures out == head + Data(weights)
  {
    hide Begin;
    out := head;
    var i := 0;
    while i < |weights|
      invariant i <= |weights| && out == head + Data(weights[..i])
    {
      BeginNext(weights, i);
      out := out + weights[i].1.data;
      i := i + 1;
    }
    assert weights[..i] == weights;
  }

  lemma BeginFirst(weights: Dict<Array>)
    ensures Begin(weights, 0) == 0
  {
  }

  lemma SizeOf(a: Array)
    requires Contiguous(a)
    ensures |a.data| == Volume(a.shape) * ItemSize(a.dtype)
  {
  }

  // ----- Reading -----

  /** `f.read(n)` at a position: as many bytes as there are, all of them when n is negative. */
  function ReadAt(file: seq<Byte>, pos: nat, n: int): seq<Byte> {
    if pos >= |file| then []
    else if n < 0 || pos + n > |file| then file[pos..]
    else file[pos..pos + n]
  }

  predicate Readable(d: Dtype) {
    d != I8 && d != Other
  }

  function ReadEntry(file: seq<Byte>, base: nat, e: Entry): Option<Array> {
    var info := match e case Weight(i) => Some(i) case Metadata(r) => r;
    match info
    case None => None
    case Some(i) =>
      var bytes := ReadAt(file, base + i.begin, i.end - i.begin);
      if !Readable(i.dtype) || |bytes| % ItemSize(i.dtype) != 0 || |bytes| / ItemSize(i.dtype) != Volume(i.shape) then None
      else Some(Array(i.dtype, i.shape, bytes))
  }

  function ReadEntries(file: seq<Byte>, base: nat, header: Header): Option<map<string, Array>> {
    if header == [] then Some(map[])
    else
      var k := |header| - 1;
      match ReadEntries(file, base, header[..k])
      case None => None
      case Some(m) =>
        match ReadEntry(file, base, header[k].1)
        case None => None
        case Some(a) => Some(m[header[k].0 := a])
  }

  function ReadBack(file: seq<Byte>, decode: seq<Byte> -> Option<Header>): Option<map<string, Array>> {
    var n := FromBytes(ReadAt(file, 0, LENGTH_BYTES));
    match decode(ReadAt(file, LENGTH_BYTES, n))
    case None => None
    case Some(header) => ReadEntries(file, n + LENGTH_BYTES, header)
  }

  /** `deserialize_managed_weights`, on any bytes. */
  method Deserialize(file: seq<Byte>, decode: seq<Byte> -> Option<Header>) returns (weights: Option<map<string, Array>>)
    ensures weights == ReadBack(file, decode)
  {
    var n := FromBytes(ReadAt(file, 0, LENGTH_BYTES));
    var decoded := decode(ReadAt(file, LENGTH_BYTES, n));
    if decoded.None? {
      return None;
    }
    var header := decoded.value;
    var m: map<string, Array> := map[];
    var i := 0;
    while i < |header|
      invariant i <= |header| && ReadEntries(file, n + LENGTH_BYTES, header[..i]) == Some(m)
    {
      assert header[..i + 1][..i] == header[..i];
      var a := ReadEntry(file, n + LENGTH_BYTES, header[i].1);
      if a.None? {
        UnreadableEntry(file, n + LENGTH_BYTES, header, i);
        return None;
      }
      m := m[header[i].0 := a.value];
      i := i + 1;
    }
    assert header[..i] == header;
    weights := Some(m);
  }

  /** One entry that cannot be read makes the whole read raise. */
  lemma {:induction false} UnreadableEntry(file: seq<Byte>, base: nat, header: Header, i: nat)
    requires i < |header| && ReadEntry(file, base, header[i].1).None?
    ensures ReadEntries(file, base, header).None?
    decreases |header|
  {
    if i < |header| - 1 {
      UnreadableEntry(file, base, header[..|header| - 1], i);
    }
  }

  // ----- Round trip -----

  /** The bytes of weight i lie between its two offsets. */
  lemma {:induction false} DataAt(weights: Dict<Array>, i: nat)
    requires i < |weights|
    ensures Begin(weights, i) <= Begin(weights, i + 1) <= |Data(weights)|
    ensures Data(weights)[Begin(weights, i)..Begin(weights, i + 1)] == weights[i].1.data
    decreases |weights|
  {
    var k := |weights| - 1;
    BeginNext(weights, i);
    if i == k {
      assert weights[..k + 1] == weights;
    } else {
      var init := weights[..k];
      DataAt(init, i);
      assert init[..i] == weights[..i] && init[..i + 1] == weights[..i + 1];
    }
  }

  /** An array's range is as long as its elements are wide, times their number. */
  lemma RangeSizes(weights: Dict<Array>, i: nat)
    requires i < |weights| && Contiguous(weights[i].1)
    ensures var info, n := InfoAt(weights, i), Volume(weights[i].1.shape);
            info.end - info.begin ==
              match weights[i].1.dtype
              case F32 => 4 * n
              case F16 => 2 * n
              case BF16 => 2 * n
              case F8 => n
              case I64 => 8 * n
              case I32 => 4 * n
              case I8 => n
              case Other => n
  {
    hide Volume, Begin;
    BeginNext(weights, i);
  }

  /** The ranges tile the data: they start at 0, each begins where the one before ends, the last ends at the end. */
  lemma RangesTile(weights: Dict<Array>, i: nat)
    requires i < |weights|
    ensures InfoAt(weights, 0).begin == 0
    ensures i + 1 < |weights| ==> InfoAt(weights, i).end == InfoAt(weights, i + 1).begin
    ensures InfoAt(weights, |weights| - 1).end == |Data(weights)|
    ensures InfoAt(weights, i).end - InfoAt(weights, i).begin == |weights[i].1.data|
  {
    BeginNext(weights, i);
    assert weights[..|weights|] == weights;
  }

  /** What a header entry is: the record of the weight of that name, or the metadata. */
  predicate Describes(weights: Dict<Array>, n: nat, metadata: Option<Option<Info>>, e: (string, Entry))
    requires n <= |weights|
  {
    (exists i :: 0 <= i < n && weights[i].0 == e.0 && e.1 == Weight(InfoAt(weights, i))) ||
    (metadata.Some? && e == (METADATA, Metadata(metadata.value)) && !HasName(weights[..n], METADATA))
  }

  /** The header has one entry for every weight, and the metadata unless a weight took its name. */
  lemma {:induction false} HeaderExactly(weights: Dict<Array>, metadata: Option<Option<Info>>, n: nat)
    requires n <= |weights| && DistinctNames(weights)
    ensures var h := HeaderOf(weights, metadata, n);
            DistinctNames(h) &&
            (forall j :: 0 <= j < |h| ==> Describes(weights, n, metadata, h[j])) &&
            (forall x :: HasName(h, x) <==> HasName(weights[..n], x) || (metadata.Some? && x == METADATA))
  {
    hide Put, InfoAt;
    var h := HeaderOf(weights, metadata, n);
    if n == 0 {
      forall x ensures HasName(h, x) <==> metadata.Some? && x == METADATA {
        if metadata.Some? {
          assert h[0].0 == METADATA;
        }
      }
    } else {
      var before, name, info := HeaderOf(weights, metadata, n - 1), weights[n - 1].0, Weight(InfoAt(weights, n - 1));
      HeaderExactly(weights, metadata, n - 1);
      PutNames(before, name, info);
      forall j | 0 <= j < |h| ensures Describes(weights, n, metadata, h[j]) {
        PutEntries(before, name, info, j);
        if h[j].0 == name {
          assert weights[n - 1].0 == h[j].0 && h[j].1 == Weight(InfoAt(weights, n - 1));
        } else {
          DescribesMore(weights, n - 1, metadata, h[j]);
        }
      }
      forall x ensures HasName(h, x) <==> HasName(weights[..n], x) || (metadata.Some? && x == METADATA) {
        NameLast(weights, x, n - 1);
      }
    }
  }

  lemma DescribesMore(weights: Dict<Array>, n: nat, metadata: Option<Option<Info>>, e: (string, Entry))
    requires n < |weights| && Describes(weights, n, metadata, e) && e.0 != weights[n].0
    ensures Describes(weights, n + 1, metadata, e)
  {
    NameLast(weights, METADATA, n);
  }

  /** The recorded range of weight i, read from the file, is weight i, if the reader knows its type. */
  lemma WeightReads(weights: Dict<Array>, text: seq<Byte>, i: nat)
    requires i < |weights| && Contiguous(weights[i].1)
    ensures ReadEntry(FileOf(text, Data(weights)), |text| + LENGTH_BYTES, Weight(InfoAt(weights, i))) ==
            if Readable(weights[i].1.dtype) then Some(weights[i].1) else None
  {
    hide Data, Begin, Volume, ItemSize, FileOf, ReadAt;
    var a := weights[i].1;
    RangeReads(weights, text, i);
    DivModUnique(|a.data|, ItemSize(a.dtype), Volume(a.shape), 0);
  }

  lemma RangeReads(weights: Dict<Array>, text: seq<Byte>, i: nat)
    requires i < |weights|
    ensures var info := InfoAt(weights, i);
            ReadAt(FileOf(text, Data(weights)), |text| + LENGTH_BYTES + info.begin, info.end - info.begin) == weights[i].1.data
  {
    hide Data, Begin, ToBytes, ReadAt;
    DataAt(weights, i);
    SliceAfter(ToBytes(|text|, LENGTH_BYTES) + text, Data(weights), Begin(weights, i), Begin(weights, i + 1));
  }

  lemma SliceAfter(head: seq<Byte>, data: seq<Byte>, b: nat, e: nat)
    requires b <= e <= |data|
    ensures ReadAt(head + data, |head| + b, e - b) == data[b..e]
  {
  }

  lemma HeadReads(text: seq<Byte>, data: seq<Byte>)
    requires |text| < Power256(LENGTH_BYTES)
    ensures FromBytes(ReadAt(FileOf(text, data), 0, LENGTH_BYTES)) == |text|
    ensures ReadAt(FileOf(text, data), LENGTH_BYTES, |text|) == text
  {
    hide Power256, FromBytes;
    var len := ToBytes(|text|, LENGTH_BYTES);
    var file := FileOf(text, data);
    BytesRoundTrip(|text|, LENGTH_BYTES);
    assert file[..LENGTH_BYTES] == len && ReadAt(file, 0, LENGTH_BYTES) == len;
    assert file[LENGTH_BYTES..LENGTH_BYTES + |text|] == text;
  }

  /** When every entry reads, the result maps every name to what its entry reads as. */
  lemma {:induction false} AllEntriesRead(file: seq<Byte>, base: nat, header: Header)
    requires DistinctNames(header) && forall j :: 0 <= j < |header| ==> ReadEntry(file, base, header[j].1).Some?
    ensures match ReadEntries(file, base, header)
            case None => false
            case Some(m) =>
              (forall x :: x in m <==> HasName(header, x)) &&
              forall j :: 0 <= j < |header| ==> header[j].0 in m && m[header[j].0] == ReadEntry(file, base, header[j].1).value
    decreases |header|
  {
    hide ReadEntry;
    if header != [] {
      var k := |header| - 1;
      AllEntriesRead(file, base, header[..k]);
      forall x ensures HasName(header, x) <==> HasName(header[..k], x) || header[k].0 == x {
        NameLast(header, x, k);
        assert header[..k + 1] == header;
      }
      forall j | 0 <= j < k ensures header[j].0 != header[k].0 && header[j] == header[..k][j] {
      }
    }
  }

  predicate AllReadable(weights: Dict<Array>) {
    forall i :: 0 <= i < |weights| ==> Readable(weights[i].1.dtype)
  }

  /** With no metadata left in the header and only known types, the read gives back the written dictionary. */
  lemma ReadsBack(weights: Dict<Array>, metadata: Option<Option<Info>>, text: seq<Byte>)
    requires DistinctNames(weights) && Writable(weights) && AllReadable(weights)
    requires metadata.None? || HasName(weights, METADATA)
    ensures ReadEntries(FileOf(text, Data(weights)), |text| + LENGTH_BYTES, HeaderOf(weights, metadata, |weights|)) ==
            Some(MapOf(weights))
  {
    hide ReadEntry, ReadEntries, HeaderOf, Data, InfoAt, Contiguous, FileOf, MapOf;
    var file, base, h := FileOf(text, Data(weights)), |text| + LENGTH_BYTES, HeaderOf(weights, metadata, |weights|);
    HeaderExactly(weights, metadata, |weights|);
    assert weights[..|weights|] == weights;
    MapOfExactly(weights);
    forall j | 0 <= j < |h|
      ensures h[j].0 in MapOf(weights) && ReadEntry(file, base, h[j].1) == Some(MapOf(weights)[h[j].0])
    {
      assert Describes(weights, |weights|, metadata, h[j]);
      var i :| 0 <= i < |weights| && weights[i].0 == h[j].0 && h[j].1 == Weight(InfoAt(weights, i));
      WeightReads(weights, text, i);
    }
    AllEntriesRead(file, base, h);
    var m := ReadEntries(file, base, h).value;
    forall x | x in m ensures x in MapOf(weights) && m[x] == MapOf(weights)[x] {
      assert HasName(h, x);
      var j :| 0 <= j < |h| && h[j].0 == x;
    }
    assert m == MapOf(weights);
  }

  /** The entry of a weight is in the header. */
  lemma HeaderHas(weights: Dict<Array>, metadata: Option<Option<Info>>, i: nat) returns (j: nat)
    requires DistinctNames(weights) && i < |weights|
    ensures var h := HeaderOf(weights, metadata, |weights|);
            j < |h| && h[j] == (weights[i].0, Weight(InfoAt(weights, i)))
  {
    hide HeaderOf, InfoAt;
    var h := HeaderOf(weights, metadata, |weights|);
    HeaderExactly(weights, metadata, |weights|);
    assert weights[..|weights|] == weights;
    assert HasName(weights, weights[i].0);
    var k :| 0 <= k < |h| && h[k].0 == weights[i].0;
    assert Describes(weights, |weights|, metadata, h[k]);
    j := k;
  }

  /**
   Reading back what was written gives the same dictionary exactly when the reader knows every type
   (it has no case for I8) and no metadata entry is left in the header.
   */
  lemma RoundTripIff(weights: Dict<Array>, metadata: Option<Option<Info>>,
                     encode: Header -> seq<Byte>, decode: seq<Byte> -> Option<Header>)
    requires DistinctNames(weights) && Writable(weights)
    requires var h := HeaderOf(weights, metadata, |weights|);
             decode(encode(h)) == Some(h) && |encode(h)| < Power256(LENGTH_BYTES)
    ensures var text := encode(HeaderOf(weights, metadata, |weights|));
            ReadBack(FileOf(text, Data(weights)), decode) == Some(MapOf(weights)) <==>
            AllReadable(weights) && (metadata.None? || HasName(weights, METADATA))
  {
    hide HeaderOf, Data, InfoAt, ReadEntry, ReadEntries, FileOf, MapOf, Power256, ReadAt, FromBytes, HasName;
    var h := HeaderOf(weights, metadata, |weights|);
    var text := encode(h);
    var file, base := FileOf(text, Data(weights)), |text| + LENGTH_BYTES;
    HeadReads(text, Data(weights));
    assert ReadBack(file, decode) == ReadEntries(file, base, h);
    if AllReadable(weights) && (metadata.None? || HasName(weights, METADATA)) {
      ReadsBack(weights, metadata, text);
    } else if !AllReadable(weights) {
      var i :| 0 <= i < |weights| && !Readable(weights[i].1.dtype);
      WeightReads(weights, text, i);
      var j := HeaderHas(weights, metadata, i);
      UnreadableEntry(file, base, h, j);
    } else {
      MetadataLeft(weights, metadata, file, base);
    }
  }

  /** A metadata entry left in the header is read as one weight too many, or makes the read raise. */
  lemma MetadataLeft(weights: Dict<Array>, metadata: Option<Option<Info>>, file: seq<Byte>, base: nat)
    requires DistinctNames(weights) && metadata.Some? && !HasName(weights, METADATA)
    ensures ReadEntries(file, base, HeaderOf(weights, metadata, |weights|)) != Some(MapOf(weights))
  {
    hide HeaderOf, ReadEntry, ReadEntries, MapOf;
    var h := HeaderOf(weights, metadata, |weights|);
    HeaderExactly(weights, metadata, |weights|);
    MapOfExactly(weights);
    assert HasName(h, METADATA);
    if forall j :: 0 <= j < |h| ==> ReadEntry(file, base, h[j].1).Some? {
      AllEntriesRead(file, base, h);
    } else {
      var j :| 0 <= j < |h| && ReadEntry(file, base, h[j].1).None?;
      UnreadableEntry(file, base, h, j);
    }
  }

  /** One 8-bit integer array: written without complaint, and never read back. */
  lemma Int8IsNotReadBack(encode: Header -> seq<Byte>, decode: seq<Byte> -> Option<Header>)
    requires var h := HeaderOf([("w", Array(I8, [1], [7]))], None, 1);
             decode(encode(h)) == Some(h) && |encode(h)| < Power256(LENGTH_BYTES)
    ensures var weights := [("w", Array(I8, [1], [7]))];
            Writable(weights) &&
            ReadBack(FileOf(encode(HeaderOf(weights, None, 1)), Data(weights)), decode) != Some(MapOf(weights))
  {
    hide HeaderOf, Data, ReadBack, FileOf, MapOf, Power256;
    var weights := [("w", Array(I8, [1], [7]))];
    assert Contiguous(weights[0].1) by {
      assert [1][..0] == [];
    }
    assert !Readable(weights[0].1.dtype);
    RoundTripIff(weights, None, encode, decode);
  }
}
