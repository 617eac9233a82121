/**
 * TLV8, the type-length-value format every camera message is written in (section 14.1 of
 * Apple's HomeKit Accessory Protocol Specification, Non-Commercial Version R2).
 *
 * On the wire one entry is `[tag][length][value]` with a one-byte length, so a value longer
 * than 255 bytes is written as consecutive entries of the same tag: full 255-byte fragments
 * followed by the remainder. A reader joins an entry to the previous one when it carries the
 * same tag and the previous entry was full. Nested structures are TLV8 blobs used as values.
 */
module Tlv {
  import opened Wrappers
  import opened Bytes

  /** One logical entry: a tag and its whole (unfragmented) value. */
  datatype Item = Item(tag: byte, value: bytes)

  /** The most one wire entry can carry: its length must fit the length byte. */
  const MaxChunk: nat := 255

  /** Every entry fits in a single wire entry. */
  predicate Chunked(fs: seq<Item>) {
    forall f <- fs :: |f.value| <= MaxChunk
  }

  /** The values of `fs`, concatenated in order. */
  function Join(fs: seq<Item>): bytes {
    if fs == [] then [] else fs[0].value + Join(fs[1..])
  }

  /** The wire entries one value of `tag` is written as. */
  function Fragments(tag: byte, value: bytes): (fs: seq<Item>)
    ensures |fs| > 0 && Chunked(fs)
    ensures fs[0].tag == tag
    decreases |value|
  {
    if |value| <= MaxChunk then [Item(tag, value)]
    else [Item(tag, value[..MaxChunk])] + Fragments(tag, value[MaxChunk..])
  }

  /** Wire entries written one after the other. */
  function Wire(fs: seq<Item>): bytes
    requires Chunked(fs)
  {
    if fs == [] then [] else [fs[0].tag, |fs[0].value|] + fs[0].value + Wire(fs[1..])
  }

  /** The wire entries of a whole list of logical entries. */
  function Split(items: seq<Item>): (fs: seq<Item>)
    ensures Chunked(fs)
  {
    if items == [] then [] else Fragments(items[0].tag, items[0].value) + Split(items[1..])
  }

  /** `tlv.encode(t1, v1, t2, v2, ...)`: the entries written in order. */
  function Encode(items: seq<Item>): bytes {
    Wire(Split(items))
  }

  /**
   * The wire entries of `b`, in order, or None when a declared length runs past the end of
   * the buffer (or a tag byte has no length byte after it).
   */
  function Scan(b: bytes): (r: Option<seq<Item>>)
    ensures r.Some? ==> Chunked(r.value)
    decreases |b|
  {
    if b == [] then Some([])
    else if |b| < 2 || b[1] > |b| - 2 then None
    else
      match Scan(b[2 + b[1]..])
      case None => None
      case Some(rest) =>
        Some([Item(b[0], b[2..2 + b[1]])] + rest)
  }

  /**
   * Joins wire entries into logical entries: an entry continues the previous one when it has
   * the same tag and the previous wire entry was full.
   */
  function Assemble(fs: seq<Item>): (items: seq<Item>)
    ensures |fs| > 0 ==> |items| > 0 && items[0].tag == fs[0].tag
    ensures |items| <= |fs|
  {
    if fs == [] then []
    else if |fs| >= 2 && fs[1].tag == fs[0].tag && |fs[0].value| == MaxChunk then
      var rest := Assemble(fs[1..]);
      [Item(fs[0].tag, fs[0].value + rest[0].value)] + rest[1..]
    else [fs[0]] + Assemble(fs[1..])
  }

  /** The logical entries of a blob, in order, keeping same-tag siblings apart. */
  function DecodeList(b: bytes): Option<seq<Item>> {
    match Scan(b)
    case None => None
    case Some(fs) => Some(Assemble(fs))
  }

  /** No entry after index `i` has the tag of entry `i`. */
  predicate LastOfTag(items: seq<Item>, i: int)
    requires 0 <= i < |items|
  {
    forall j | i < j < |items| :: items[j].tag != items[i].tag
  }

  /** The tag-to-value view of a list of entries, where a later entry of a tag replaces an earlier one. */
  function LastWins(items: seq<Item>): (m: map<byte, bytes>)
    ensures forall i | 0 <= i < |items| :: items[i].tag in m
    ensures forall t | t in m :: exists i | 0 <= i < |items| :: items[i].tag == t
    ensures forall i | 0 <= i < |items| && LastOfTag(items, i) :: m[items[i].tag] == items[i].value
  {
    if items == [] then map[]
    else
      var init := items[..|items| - 1];
      var last := items[|items| - 1];
      var prior := LastWins(init);
      LastWinsStep(items, prior);
      prior[last.tag := last.value]
  }

  /** Appending one entry to a list updates its tag-to-value view at that entry's tag. */
  lemma LastWinsStep(items: seq<Item>, prior: map<byte, bytes>)
    requires |items| > 0
    requires var init := items[..|items| - 1];
      && (forall i | 0 <= i < |init| :: init[i].tag in prior)
      && (forall t | t in prior :: exists i | 0 <= i < |init| :: init[i].tag == t)
      && (forall i | 0 <= i < |init| && LastOfTag(init, i) :: prior[init[i].tag] == init[i].value)
    ensures var last := items[|items| - 1];
      var m := prior[last.tag := last.value];
      && (forall i | 0 <= i < |items| :: items[i].tag in m)
      && (forall t | t in m :: exists i | 0 <= i < |items| :: items[i].tag == t)
      && (forall i | 0 <= i < |items| && LastOfTag(items, i) :: m[items[i].tag] == items[i].value)
  {
    var init, last := items[..|items| - 1], items[|items| - 1];
    var m := prior[last.tag := last.value];
    assert forall i | 0 <= i < |init| :: items[i] == init[i];
    forall t | t in m
      ensures exists i | 0 <= i < |items| :: items[i].tag == t
    {
      if t != last.tag {
        var i :| 0 <= i < |init| && init[i].tag == t;
        assert items[i].tag == t;
      }
    }
    forall i | 0 <= i < |items| - 1 && LastOfTag(items, i)
      ensures m[items[i].tag] == items[i].value
    {
      assert items[i].tag != items[|items| - 1].tag;
      assert LastOfTag(init, i);
    }
  }

  /**
   * `tlv.decode(b)`: the tag-to-value view of a blob, or None when the blob is truncated.
   * That a tag recurring after another tag keeps its last value is an assumption of this
   * model; TLV8 itself only defines the joining of consecutive fragments.
   */
  function Decode(b: bytes): Option<map<byte, bytes>> {
    match DecodeList(b)
    case None => None
    case Some(items) => Some(LastWins(items))
  }

  /** The last wire entry of `value` is full, so a following entry of the same tag would join it. */
  predicate EndsFull(value: bytes) {
    |value| > 0 && |value| % MaxChunk == 0
  }

  /** No entry is followed by a same-tag sibling that a reader would take for its continuation. */
  predicate Separable(items: seq<Item>) {
    forall i | 0 <= i < |items| - 1 :: items[i].tag == items[i + 1].tag ==> !EndsFull(items[i].value)
  }

  /** Adjacent entries with different tags are always read apart. */
  lemma AdjacentDistinctSeparable(items: seq<Item>)
    requires forall i | 0 <= i < |items| - 1 :: items[i].tag != items[i + 1].tag
    ensures Separable(items)
  {
  }

  lemma WireAppend(a: seq<Item>, b: seq<Item>)
    requires Chunked(a) && Chunked(b)
    ensures Chunked(a + b)
    ensures Wire(a + b) == Wire(a) + Wire(b)
  {
    if a != [] {
      assert (a + b)[1..] == a[1..] + b;
      WireAppend(a[1..], b);
    } else {
      assert a + b == b;
    }
  }

  lemma SplitAppend(a: seq<Item>, b: seq<Item>)
    ensures Split(a + b) == Split(a) + Split(b)
  {
    if a != [] {
      assert (a + b)[1..] == a[1..] + b;
      SplitAppend(a[1..], b);
    } else {
      assert a + b == b;
    }
  }

  /** Encoding distributes over concatenation: `tlv.encode(...) + tlv.encode(...)` is one encoding. */
  lemma EncodeAppend(a: seq<Item>, b: seq<Item>)
    ensures Encode(a + b) == Encode(a) + Encode(b)
  {
    SplitAppend(a, b);
    WireAppend(Split(a), Split(b));
  }

  /** A value of at most 255 bytes is written as exactly `[tag][length][value]`. */
  lemma EncodeShort(tag: byte, value: bytes)
    requires |value| <= MaxChunk
    ensures Encode([Item(tag, value)]) == [tag, |value|] + value
  {
    var f := Item(tag, value);
    assert Split([f]) == Fragments(tag, value) + Split([]);
    assert Split([f]) == [f];
    assert Wire([f]) == [tag, |value|] + value + Wire([]);
  }

  /** Scanning the wire form of chunked entries gives those entries back. */
  lemma {:induction false} ScanWire(fs: seq<Item>)
    requires Chunked(fs)
    ensures Scan(Wire(fs)) == Some(fs)
  {
    if fs != [] {
      var b := Wire(fs);
      var f := fs[0];
      assert b == [f.tag, |f.value|] + f.value + Wire(fs[1..]);
      assert b[2 + b[1]..] == Wire(fs[1..]);
      assert b[2..2 + b[1]] == f.value;
      ScanWire(fs[1..]);
      assert [f] + fs[1..] == fs;
    }
  }

  /** The fragments of one value are joined back into that value, and no further. */
  lemma {:induction false} AssembleFragments(tag: byte, value: bytes, rest: seq<Item>)
    requires rest == [] || rest[0].tag != tag || !EndsFull(value)
    ensures Assemble(Fragments(tag, value) + rest) == [Item(tag, value)] + Assemble(rest)
    decreases |value|
  {
    var fs := Fragments(tag, value) + rest;
    if |value| <= MaxChunk {
      assert fs == [Item(tag, value)] + rest;
      assert fs[1..] == rest;
      assert |value| == MaxChunk ==> EndsFull(value);
    } else {
      var tail := value[MaxChunk..];
      var more := Fragments(tag, tail);
      assert Fragments(tag, value) == [Item(tag, value[..MaxChunk])] + more;
      assert fs == [Item(tag, value[..MaxChunk])] + (more + rest);
      assert fs[1..] == more + rest;
      assert |tail| % MaxChunk == |value| % MaxChunk;
      AssembleFragments(tag, tail, rest);
      assert value[..MaxChunk] + tail == value;
    }
  }

  /** Reassembling the wire entries of a separable list gives the list back. */
  lemma {:induction false} AssembleSplit(items: seq<Item>)
    requires Separable(items)
    ensures Assemble(Split(items)) == items
  {
    if items != [] {
      var rest := Split(items[1..]);
      assert Separable(items[1..]) by {
        forall i | 0 <= i < |items[1..]| - 1
          ensures items[1..][i].tag == items[1..][i + 1].tag ==> !EndsFull(items[1..][i].value)
        {
          assert items[1..][i] == items[i + 1] && items[1..][i + 1] == items[i + 2];
        }
      }
      AssembleSplit(items[1..]);
      if |items| > 1 {
        assert rest == Fragments(items[1].tag, items[1].value) + Split(items[2..]);
      }
      AssembleFragments(items[0].tag, items[0].value, rest);
      assert [items[0]] + items[1..] == items;
    }
  }

  /** Round trip: a separable list of entries is read back exactly, in order. */
  lemma DecodeListEncode(items: seq<Item>)
    requires Separable(items)
    ensures DecodeList(Encode(items)) == Some(items)
  {
    ScanWire(Split(items));
    AssembleSplit(items);
  }

  /** Entries shorter than a full wire entry are always read apart. */
  lemma DecodeListEncodeShort(items: seq<Item>)
    requires forall i | 0 <= i < |items| :: |items[i].value| < MaxChunk
    ensures DecodeList(Encode(items)) == Some(items)
  {
    DecodeListEncode(items);
  }

  /** Round trip through the tag-to-value view. */
  lemma DecodeEncode(items: seq<Item>)
    requires Separable(items)
    ensures Decode(Encode(items)) == Some(LastWins(items))
  {
    DecodeListEncode(items);
  }

  /** Entry `i` of a list with pairwise distinct tags is found under its own tag. */
  lemma DecodeLookup(items: seq<Item>, i: nat)
    requires forall j, k | 0 <= j < k < |items| :: items[j].tag != items[k].tag
    requires i < |items|
    ensures Decode(Encode(items)).Some?
    ensures items[i].tag in Decode(Encode(items)).value
    ensures Decode(Encode(items)).value[items[i].tag] == items[i].value
  {
    DecodeEncodeDistinct(items);
  }

  /** A single entry is read back as the one-entry map. */
  lemma DecodeSingle(tag: byte, value: bytes)
    ensures DecodeList(Encode([Item(tag, value)])) == Some([Item(tag, value)])
    ensures Decode(Encode([Item(tag, value)])) == Some(map[tag := value])
  {
    DecodeListEncode([Item(tag, value)]);
    assert [Item(tag, value)][..0] == [];
  }

  /** Two entries under different tags decode to the map holding exactly those two. */
  lemma DecodePair(t1: byte, v1: bytes, t2: byte, v2: bytes)
    requires t1 != t2
    ensures Decode(Encode([Item(t1, v1), Item(t2, v2)])) == Some(map[t1 := v1, t2 := v2])
  {
    var items := [Item(t1, v1), Item(t2, v2)];
    DecodeEncodeDistinct(items);
    PairMap(Decode(Encode(items)).value, items);
  }

  /** The same, naming the decoded map and listing what it holds. */
  lemma DecodePairFields(t1: byte, v1: bytes, t2: byte, v2: bytes) returns (m: map<byte, bytes>)
    requires t1 != t2
    ensures Decode(Encode([Item(t1, v1), Item(t2, v2)])) == Some(m)
    ensures t1 in m && m[t1] == v1 && t2 in m && m[t2] == v2
    ensures forall t | t != t1 && t != t2 :: t !in m
  {
    DecodePair(t1, v1, t2, v2);
    m := map[t1 := v1, t2 := v2];
  }

  lemma PairMap(m: map<byte, bytes>, items: seq<Item>)
    requires |items| == 2
    requires forall i | 0 <= i < |items| :: items[i].tag in m && m[items[i].tag] == items[i].value
    requires forall t | t in m :: exists i | 0 <= i < |items| :: items[i].tag == t
    ensures m == map[items[0].tag := items[0].value, items[1].tag := items[1].value]
  {
    assert items[0].tag in m && items[1].tag in m;
    forall t | t in m ensures t == items[0].tag || t == items[1].tag {
      var i :| 0 <= i < |items| && items[i].tag == t;
    }
  }

  /** Entries whose tags are pairwise distinct are each found under their own tag, and nothing else is. */
  lemma DecodeEncodeDistinct(items: seq<Item>)
    requires forall i, j | 0 <= i < j < |items| :: items[i].tag != items[j].tag
    ensures Decode(Encode(items)).Some?
    ensures forall i | 0 <= i < |items| :: items[i].tag in Decode(Encode(items)).value
    ensures forall i | 0 <= i < |items| :: Decode(Encode(items)).value[items[i].tag] == items[i].value
    ensures forall t | t in Decode(Encode(items)).value :: exists i | 0 <= i < |items| :: items[i].tag == t
  {
    AdjacentDistinctSeparable(items);
    DecodeEncode(items);
    var m := LastWins(items);
    forall i | 0 <= i < |items|
      ensures m[items[i].tag] == items[i].value
    {
      assert LastOfTag(items, i);
    }
  }
}
