/** Length-prefixed framing of the material that is hashed for runtime keys and corpus digests. */
module Framing {
  import opened Prelude
  import opened Utf8

  const PREFIX_BYTES: nat := 8
  const PREFIX_LIMIT: nat := 0x1_0000_0000_0000_0000

  datatype Order = BigEndian | LittleEndian

  function Pow256(k: nat): nat {
    if k == 0 then 1 else 256 * Pow256(k - 1)
  }

  /** The `k` low bytes of `n`. */
  function ToBytes(order: Order, n: nat, k: nat): (r: seq<Byte>)
    ensures |r| == k
  {
    if k == 0 then []
    else if order == BigEndian then ToBytes(order, n / 256, k - 1) + [n % 256]
    else [n % 256] + ToBytes(order, n / 256, k - 1)
  }

  function FromBytes(order: Order, bytes: seq<Byte>): nat {
    if bytes == [] then 0
    else
      var n := |bytes| - 1;
      if order == BigEndian then 256 * FromBytes(order, bytes[..n]) + bytes[n]
      else 256 * FromBytes(order, bytes[1..]) + bytes[0]
  }

  lemma {:induction false} BytesRoundTrip(order: Order, n: nat, k: nat)
    requires n < Pow256(k)
    ensures FromBytes(order, ToBytes(order, n, k)) == n
  {
    if k > 0 {
      BytesRoundTrip(order, n / 256, k - 1);
      var r := ToBytes(order, n, k);
      if order == BigEndian {
        assert r[..k - 1] == ToBytes(order, n / 256, k - 1);
      } else {
        assert r[1..] == ToBytes(order, n / 256, k - 1);
      }
    }
  }

  lemma SplitByte(v: nat, b: Byte)
    ensures (256 * v + b) / 256 == v && (256 * v + b) % 256 == b
  {
  }

  lemma {:induction false} ToBytesOfFrom(order: Order, bytes: seq<Byte>)
    ensures FromBytes(order, bytes) < Pow256(|bytes|)
    ensures ToBytes(order, FromBytes(order, bytes), |bytes|) == bytes
  {
    if bytes != [] {
      var n := |bytes| - 1;
      if order == BigEndian {
        ToBytesOfFrom(order, bytes[..n]);
        assert bytes == bytes[..n] + [bytes[n]];
        SplitByte(FromBytes(order, bytes[..n]), bytes[n]);
      } else {
        ToBytesOfFrom(order, bytes[1..]);
        assert bytes == [bytes[0]] + bytes[1..];
        SplitByte(FromBytes(order, bytes[1..]), bytes[0]);
      }
    }
  }

  lemma PrefixLimit()
    ensures Pow256(PREFIX_BYTES) == PREFIX_LIMIT
  {
    assert Pow256(2) == 0x1_0000;
    assert Pow256(4) == 0x1_0000_0000;
    assert Pow256(6) == 0x1_0000_0000_0000;
  }

  /** A length is written as an unsigned 64-bit integer. */
  function Frame(order: Order, fields: seq<seq<Byte>>): seq<Byte> {
    if fields == [] then []
    else
      var n := |fields| - 1;
      Frame(order, fields[..n]) + (ToBytes(order, |fields[n]|, PREFIX_BYTES) + fields[n])
  }

  lemma FrameNothing(order: Order)
    ensures Frame(order, []) == []
  {
  }

  lemma FrameOneMore(order: Order, fields: seq<seq<Byte>>, f: seq<Byte>)
    ensures Frame(order, fields + [f]) == Frame(order, fields) + ToBytes(order, |f|, PREFIX_BYTES) + f
  {
    hide ToBytes;
    assert (fields + [f])[..|fields|] == fields;
  }

  predicate Representable(fields: seq<seq<Byte>>) {
    forall i :: 0 <= i < |fields| ==> |fields[i]| < PREFIX_LIMIT
  }

  /** The decoder: read a length, then that many bytes. */
  function Unframe(order: Order, bytes: seq<Byte>): Option<seq<seq<Byte>>>
    decreases |bytes|
  {
    if bytes == [] then Some([])
    else if |bytes| < PREFIX_BYTES then None
    else
      var end := PREFIX_BYTES + FromBytes(order, bytes[..PREFIX_BYTES]);
      if |bytes| < end then None
      else
        match Unframe(order, bytes[end..])
        case None => None
        case Some(rest) => Some([bytes[PREFIX_BYTES..end]] + rest)
  }

  lemma {:induction false} FrameFront(order: Order, fields: seq<seq<Byte>>)
    requires fields != []
    ensures Frame(order, fields) == ToBytes(order, |fields[0]|, PREFIX_BYTES) + fields[0] + Frame(order, fields[1..])
  {
    hide ToBytes;
    var n := |fields| - 1;
    if n > 0 {
      FrameFront(order, fields[..n]);
      assert fields[..n][1..] == fields[1..][..n - 1];
    } else {
      assert fields[1..] == [] && fields[..n] == [];
    }
  }

  /** The decoder recovers every list of representable fields. */
  lemma {:induction false} UnframeFrame(order: Order, fields: seq<seq<Byte>>)
    requires Representable(fields)
    ensures Unframe(order, Frame(order, fields)) == Some(fields)
    decreases |fields|
  {
    hide ToBytes, FromBytes;
    if fields != [] {
      FrameFront(order, fields);
      PrefixLimit();
      BytesRoundTrip(order, |fields[0]|, PREFIX_BYTES);
      UnframeFrame(order, fields[1..]);
      var prefix, rest := ToBytes(order, |fields[0]|, PREFIX_BYTES), Frame(order, fields[1..]);
      var all := prefix + fields[0] + rest;
      assert all[..PREFIX_BYTES] == prefix;
      var end := PREFIX_BYTES + |fields[0]|;
      assert all[PREFIX_BYTES..end] == fields[0] && all[end..] == rest;
      assert fields == [fields[0]] + fields[1..];
    }
  }

  lemma FieldReadBack(order: Order, bytes: seq<Byte>, end: nat, rest: seq<seq<Byte>>)
    requires PREFIX_BYTES <= end <= |bytes| && end == PREFIX_BYTES + FromBytes(order, bytes[..PREFIX_BYTES])
    requires Frame(order, rest) == bytes[end..]
    ensures Frame(order, [bytes[PREFIX_BYTES..end]] + rest) == bytes
  {
    hide ToBytes, FromBytes, Frame;
    var field := bytes[PREFIX_BYTES..end];
    assert ([field] + rest)[1..] == rest;
    FrameFront(order, [field] + rest);
    ToBytesOfFrom(order, bytes[..PREFIX_BYTES]);
    assert bytes == bytes[..PREFIX_BYTES] + field + bytes[end..];
  }

  /** Whatever decodes is the framing of what it decodes to: there is no second encoding. */
  lemma {:induction false} FrameUnframe(order: Order, bytes: seq<Byte>)
    requires Unframe(order, bytes).Some?
    ensures Frame(order, Unframe(order, bytes).value) == bytes
    decreases |bytes|
  {
    hide ToBytes, FromBytes, Frame;
    if bytes != [] {
      var prefix := bytes[..PREFIX_BYTES];
      var end := PREFIX_BYTES + FromBytes(order, prefix);
      FrameUnframe(order, bytes[end..]);
      FieldReadBack(order, bytes, end, Unframe(order, bytes[end..]).value);
    } else {
      FrameNothing(order);
    }
  }

  /** Two lists of fields give the same hash input exactly when they are the same list. */
  lemma FrameInjective(order: Order, a: seq<seq<Byte>>, b: seq<seq<Byte>>)
    requires Representable(a) && Representable(b)
    ensures Frame(order, a) == Frame(order, b) <==> a == b
  {
    hide Frame, Unframe;
    UnframeFrame(order, a);
    UnframeFrame(order, b);
  }

  /** The material of `runtime_key`. */
  method RuntimeKeyMaterial(fields: seq<seq<Byte>>) returns (material: seq<Byte>)
    ensures material == Frame(BigEndian, fields)
  {
    hide ToBytes;
    material := [];
    for i := 0 to |fields|
      invariant material == Frame(BigEndian, fields[..i])
    {
      assert fields[..i + 1][..i] == fields[..i];
      material := material + ToBytes(BigEndian, |fields[i]|, PREFIX_BYTES);
      material := material + fields[i];
    }
    assert fields[..|fields|] == fields;
  }

  // ------------------------------------------------------------- corpus digest

  datatype Entry = Entry(path: seq<Byte>, bytes: seq<Byte>)

  function Flatten(entries: seq<Entry>): (r: seq<seq<Byte>>)
    ensures |r| == 2 * |entries|
  {
    if entries == [] then []
    else
      var n := |entries| - 1;
      Flatten(entries[..n]) + [entries[n].path, entries[n].bytes]
  }

  lemma {:induction false} FlattenAt(entries: seq<Entry>, i: nat)
    requires i < |entries|
    ensures Flatten(entries)[2 * i] == entries[i].path && Flatten(entries)[2 * i + 1] == entries[i].bytes
  {
    var n := |entries| - 1;
    if i < n {
      FlattenAt(entries[..n], i);
    }
  }

  predicate RepresentableEntries(entries: seq<Entry>) {
    forall i :: 0 <= i < |entries| ==> |entries[i].path| < PREFIX_LIMIT && |entries[i].bytes| < PREFIX_LIMIT
  }

  lemma {:induction false} FlattenRepresentable(entries: seq<Entry>)
    requires RepresentableEntries(entries)
    ensures Representable(Flatten(entries))
  {
    if entries != [] {
      FlattenRepresentable(entries[..|entries| - 1]);
    }
  }

  lemma TwoFields(a: seq<Byte>, b: seq<Byte>)
    ensures Frame(LittleEndian, [a, b]) ==
            ToBytes(LittleEndian, |a|, PREFIX_BYTES) + a + ToBytes(LittleEndian, |b|, PREFIX_BYTES) + b
  {
    hide ToBytes, Frame;
    FrameOneMore(LittleEndian, [], a);
    FrameOneMore(LittleEndian, [a], b);
    FrameNothing(LittleEndian);
    assert [] + [a] == [a] && [a] + [b] == [a, b];
  }

  /** The hasher: it has absorbed a stream of bytes. */
  class Hasher {
    var absorbed: seq<Byte>

    constructor ()
      ensures absorbed == []
    {
      absorbed := [];
    }

    method Update(bytes: seq<Byte>)
      modifies this
      ensures absorbed == old(absorbed) + bytes
    {
      absorbed := absorbed + bytes;
    }

    /** `hash_digest_entry`: the path and the bytes, each behind its length. */
    method AbsorbEntry(e: Entry)
      modifies this
      ensures absorbed == old(absorbed) + Frame(LittleEndian, [e.path, e.bytes])
    {
      hide ToBytes;
      TwoFields(e.path, e.bytes);
      Update(ToBytes(LittleEndian, |e.path|, PREFIX_BYTES));
      Update(e.path);
      Update(ToBytes(LittleEndian, |e.bytes|, PREFIX_BYTES));
      Update(e.bytes);
    }
  }

  lemma FrameTwoMore(fields: seq<seq<Byte>>, a: seq<Byte>, b: seq<Byte>)
    ensures Frame(LittleEndian, fields + [a, b]) == Frame(LittleEndian, fields) + Frame(LittleEndian, [a, b])
  {
    hide ToBytes, Frame;
    TwoFields(a, b);
    FrameOneMore(LittleEndian, fields, a);
    FrameOneMore(LittleEndian, fields + [a], b);
    assert fields + [a] + [b] == fields + [a, b];
  }

  /** The whole digest stream of a corpus is the framing of its flattened entries. */
  method AbsorbCorpus(entries: seq<Entry>) returns (h: Hasher)
    ensures fresh(h) && h.absorbed == Frame(LittleEndian, Flatten(entries))
  {
    hide ToBytes;
    h := new Hasher();
    for i := 0 to |entries|
      invariant fresh(h) && h.absorbed == Frame(LittleEndian, Flatten(entries[..i]))
    {
      assert entries[..i + 1][..i] == entries[..i];
      FrameTwoMore(Flatten(entries[..i]), entries[i].path, entries[i].bytes);
      h.AbsorbEntry(entries[i]);
    }
    assert entries[..|entries|] == entries;
  }

  /** Two corpora feed the same bytes to the digest exactly when they have the same entries in order. */
  lemma CorpusStreamInjective(a: seq<Entry>, b: seq<Entry>)
    requires RepresentableEntries(a) && RepresentableEntries(b)
    ensures Frame(LittleEndian, Flatten(a)) == Frame(LittleEndian, Flatten(b)) <==> a == b
  {
    hide Frame, Flatten;
    FlattenRepresentable(a);
    FlattenRepresentable(b);
    FrameInjective(LittleEndian, Flatten(a), Flatten(b));
    if Flatten(a) == Flatten(b) {
      forall i | 0 <= i < |a|
        ensures a[i] == b[i]
      {
        FlattenAt(a, i);
        FlattenAt(b, i);
      }
    }
  }
}
