/** The Zynq-7000 converter: cut at the first sync word, pad to whole words, swap every 32-bit word in place. */
module ByteSwap {
  import opened Common
  import opened BitFile

  // ---------- what the output means ----------

  /** Reverses the bytes of every 4-byte word. */
  function Swapped(s: Bytes): (r: Bytes)
    requires |s| % 4 == 0
    ensures |r| == |s|
  {
    seq(|s|, k requires 0 <= k < |s| => s[k / 4 * 4 + 3 - k % 4])
  }

  function Padded(s: Bytes): (r: Bytes)
    ensures |r| % 4 == 0 && |s| <= |r| < |s| + 4 && s <= r
  {
    if |s| % 4 == 0 then s else s + [0, 0, 0][..4 - |s| % 4]
  }

  /** Padding adds only zeros, and only up to the next whole word. */
  lemma PaddedWithZeros(s: Bytes)
    ensures |Padded(s)| == (|s| + 3) / 4 * 4
    ensures forall k :: 0 <= k < |Padded(s)| ==> Padded(s)[k] == if k < |s| then s[k] else 0
  {
  }

  lemma SwapTwice(s: Bytes)
    requires |s| % 4 == 0
    ensures Swapped(Swapped(s)) == s
  {
    forall k | 0 <= k < |s|
      ensures Swapped(Swapped(s))[k] == s[k]
    {
      var j := k / 4 * 4 + 3 - k % 4;
      assert j / 4 == k / 4 && j % 4 == 3 - k % 4;
    }
  }

  predicate FirstSync(data: Bytes, i: int) {
    OccursAt(data, i) && forall k :: 0 <= k < i ==> !OccursAt(data, k)
  }

  // ---------- the converter ----------

  method FindSync(data: Bytes) returns (idx: int)
    ensures idx == -1 <==> forall k :: 0 <= k < |data| ==> !OccursAt(data, k)
    ensures idx != -1 ==> FirstSync(data, idx)
  {
    idx := 0;
    while idx + 4 <= |data|
      invariant 0 <= idx && forall k :: 0 <= k < idx ==> !OccursAt(data, k)
    {
      if data[idx..idx + 4] == SYNC {
        assert OccursAt(data, idx);
        return;
      }
      idx := idx + 1;
    }
    idx := -1;
  }

  function Word(b0: Byte, b1: Byte, b2: Byte, b3: Byte): int {
    (((b0 as int) * 256 + b1 as int) * 256 + b2 as int) * 256 + b3 as int
  }

  lemma WordBytes(b0: Byte, b1: Byte, b2: Byte, b3: Byte)
    ensures var w := Word(b0, b1, b2, b3);
            w % 256 == b3 && w / 256 % 256 == b2 && w / 0x1_0000 % 256 == b1 && w / 0x100_0000 % 256 == b0
  {
    var w := Word(b0, b1, b2, b3);
    assert w / 256 == ((b0 as int) * 256 + b1 as int) * 256 + b2 as int;
    assert w / 0x1_0000 == (b0 as int) * 256 + b1 as int;
    assert w / 0x100_0000 == b0 as int;
  }

  lemma SwappedWord(raw: Bytes, i: nat)
    requires |raw| % 4 == 0 && i % 4 == 0 && i + 4 <= |raw|
    ensures Swapped(raw)[i] == raw[i + 3] && Swapped(raw)[i + 1] == raw[i + 2]
    ensures Swapped(raw)[i + 2] == raw[i + 1] && Swapped(raw)[i + 3] == raw[i]
  {
  }

  /** Reads each word big-endian and writes it little-endian into the output buffer. */
  method SwapWords(raw: Bytes) returns (out: array<Byte>)
    requires |raw| % 4 == 0
    ensures fresh(out) && out[..] == Swapped(raw)
  {
    out := new Byte[|raw|](_ => 0);
    var i := 0;
    while i < |raw|
      invariant 0 <= i <= |raw| && i % 4 == 0
      invariant forall k :: 0 <= k < i ==> out[k] == Swapped(raw)[k]
    {
      var word := Word(raw[i], raw[i + 1], raw[i + 2], raw[i + 3]);
      WordBytes(raw[i], raw[i + 1], raw[i + 2], raw[i + 3]);
      out[i] := word % 256;
      out[i + 1] := word / 256 % 256;
      out[i + 2] := word / 0x1_0000 % 256;
      out[i + 3] := word / 0x100_0000 % 256;
      SwappedWord(raw, i);
      i := i + 4;
    }
  }

  /** None iff there is no sync word; otherwise un-swapping gives the file from its first sync word, zero-padded. */
  method ConvertZynq(data: Bytes) returns (r: Option<Bytes>)
    ensures r.None? <==> forall k :: 0 <= k < |data| ==> !OccursAt(data, k)
    ensures r.Some? ==> |r.value| % 4 == 0 && exists i :: FirstSync(data, i) && Swapped(r.value) == Padded(data[i..])
  {
    var idx := FindSync(data);
    if idx < 0 {
      return None;
    }
    var raw := Padded(data[idx..]);
    var out := SwapWords(raw);
    SwapTwice(raw);
    return Some(out[..]);
  }

  // ---------- agreement with the container ----------

  /** The sync word does not overlap itself. */
  lemma SyncsAreApart(data: Bytes, i: int, j: int)
    requires OccursAt(data, i) && OccursAt(data, j) && i < j
    ensures i + 4 <= j
  {
    assert data[j] == data[j..j + 4][0] == 0xAA;
    assert data[i + 1] == data[i..i + 4][1] && data[i + 2] == data[i..i + 4][2] && data[i + 3] == data[i..i + 4][3];
  }

  predicate EndsWith(s: Bytes, t: Bytes) {
    |t| <= |s| && s[|s| - |t|..] == t
  }

  lemma EndsWithPrepend(a: Bytes, s: Bytes, t: Bytes)
    requires EndsWith(s, t)
    ensures EndsWith(a + s, t)
  {
    assert (a + s)[|a + s| - |t|..] == s[|s| - |t|..];
  }

  lemma {:induction false} TaggedEnds(tags: Bytes, strings: seq<Bytes>, tail: Bytes, t: Bytes)
    requires |tags| == |strings| && AllShort(strings) && EndsWith(tail, t)
    ensures EndsWith(Tagged(tags, strings, tail), t)
  {
    if tags != [] {
      var rest := Tagged(tags[1..], strings[1..], tail);
      TaggedEnds(tags[1..], strings[1..], tail, t);
      EndsWithPrepend(Field(strings[0]), rest, t);
      EndsWithPrepend([tags[0]], Field(strings[0]) + rest, t);
    }
  }

  lemma EncodeEndsWithPayload(h: Header, p: Bytes)
    requires FitsHeader(h) && FitsPayload(p)
    ensures EndsWith(Encode(h, p), p)
  {
    EndsWithPrepend(U32(|p|), p, p);
    EndsWithPrepend([PAYLOAD_TAG], U32(|p|) + p, p);
    TaggedEnds(TAGS, h.strings, PayloadField(p), p);
    var fields := Tagged(TAGS, h.strings, PayloadField(p));
    EndsWithPrepend(U16(h.flag), fields, p);
    EndsWithPrepend(Field(h.magic), U16(h.flag) + fields, p);
  }

  lemma CutOfSuffix(data: Bytes, p: Bytes, i: int, cut: int)
    requires EndsWith(data, p) && FirstSync(p, i) && FirstSync(data, cut)
    ensures Padded(data[cut..]) == Padded(p[i..]) <==> forall k :: 0 <= k < |data| - |p| + i ==> !OccursAt(data, k)
  {
    var at := |data| - |p| + i;
    SuffixOccurs(data, p, i);
    if cut != at {
      SyncsAreApart(data, cut, at);
      assert |Padded(data[cut..])| > |Padded(p[i..])|;
    }
  }

  lemma SuffixOccurs(data: Bytes, p: Bytes, i: int)
    requires EndsWith(data, p) && OccursAt(p, i)
    ensures var at := |data| - |p| + i; OccursAt(data, at) && data[at..] == p[i..]
  {
    var n := |data| - |p|;
    assert data[n + i..n + i + 4] == data[n..][i..i + 4];
  }

  /**
   For a .bit file whose payload has its first sync word at i, the cut of the Zynq-7000 converter is
   the payload from there on, zero-padded, exactly when no sync word starts earlier in the file.
   */
  lemma CutIsPayloadIff(h: Header, p: Bytes, i: int, cut: int)
    requires FitsHeader(h) && FitsPayload(p) && FirstSync(p, i) && FirstSync(Encode(h, p), cut)
    ensures var data := Encode(h, p);
            Padded(data[cut..]) == Padded(p[i..]) <==> forall k :: 0 <= k < |data| - |p| + i ==> !OccursAt(data, k)
  {
    EncodeEndsWithPayload(h, p);
    CutOfSuffix(Encode(h, p), p, i, cut);
  }
}
