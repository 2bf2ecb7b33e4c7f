/**
 The Vivado .bit container: its field encoding, and the ZynqMP converter that strips the header and
 copies the payload verbatim.
 */
module BitFile {
  import opened Common

  const SYNC: Bytes := [0xAA, 0x99, 0x55, 0x66]
  const TAGS: Bytes := ['a' as int, 'b' as int, 'c' as int, 'd' as int]
  const PAYLOAD_TAG: Byte := 'e' as int

  /** The magic block, the flag word, and the strings under the tags a, b, c and d. */
  datatype Header = Header(magic: Bytes, flag: int, strings: seq<Bytes>)

  predicate AllShort(strings: seq<Bytes>) {
    forall i :: 0 <= i < |strings| ==> |strings[i]| < 0x1_0000
  }

  predicate FitsHeader(h: Header) {
    |h.magic| < 0x1_0000 && 0 <= h.flag < 0x1_0000 && |h.strings| == |TAGS| && AllShort(h.strings)
  }

  predicate FitsPayload(payload: Bytes) {
    |payload| < 0x1_0000_0000
  }

  // ---------- numbers ----------

  function U16(n: int): Bytes
    requires 0 <= n < 0x1_0000
  {
    [n / 256, n % 256]
  }

  function U32(n: int): Bytes
    requires 0 <= n < 0x1_0000_0000
  {
    U16(n / 0x1_0000) + U16(n % 0x1_0000)
  }

  function FromU16(s: Bytes): (n: int)
    requires |s| >= 2
    ensures 0 <= n < 0x1_0000 && U16(n) == s[..2]
  {
    (s[0] as int) * 256 + s[1] as int
  }

  function FromU32(s: Bytes): (n: int)
    requires |s| >= 4
    ensures 0 <= n < 0x1_0000_0000 && U32(n) == s[..4]
  {
    var hi, lo := FromU16(s), FromU16(s[2..]);
    assert (hi * 0x1_0000 + lo) / 0x1_0000 == hi && (hi * 0x1_0000 + lo) % 0x1_0000 == lo;
    assert s[..4] == s[..2] + s[2..][..2];
    hi * 0x1_0000 + lo
  }

  lemma FromU16Back(n: int, rest: Bytes)
    requires 0 <= n < 0x1_0000
    ensures FromU16(U16(n) + rest) == n
  {
  }

  lemma FromU32Back(n: int, rest: Bytes)
    requires 0 <= n < 0x1_0000_0000
    ensures FromU32(U32(n) + rest) == n
  {
    var x := U32(n) + rest;
    assert FromU16(x) == n / 0x1_0000 && FromU16(x[2..]) == n % 0x1_0000;
  }

  // ---------- one field ----------

  function Field(s: Bytes): Bytes
    requires |s| < 0x1_0000
  {
    U16(|s|) + s
  }

  /** A length-prefixed field at the front, and what follows it. */
  function TakeField(s: Bytes): (r: Option<(Bytes, Bytes)>)
    ensures r.Some? ==> |r.value.0| < 0x1_0000 && s == Field(r.value.0) + r.value.1
  {
    if |s| < 2 || |s| < 2 + FromU16(s) then None
    else
      var n := FromU16(s);
      assert s == s[..2] + s[2..2 + n] + s[2 + n..];
      Some((s[2..2 + n], s[2 + n..]))
  }

  lemma TakeFieldBack(s: Bytes, rest: Bytes)
    requires |s| < 0x1_0000
    ensures TakeField(Field(s) + rest) == Some((s, rest))
  {
    var x := Field(s) + rest;
    assert x == U16(|s|) + (s + rest);
    FromU16Back(|s|, s + rest);
    assert x[2..2 + |s|] == s && x[2 + |s|..] == rest;
  }

  // ---------- the tagged fields ----------

  function Tagged(tags: Bytes, strings: seq<Bytes>, tail: Bytes): Bytes
    requires |tags| == |strings| && AllShort(strings)
  {
    if tags == [] then tail else [tags[0]] + (Field(strings[0]) + Tagged(tags[1..], strings[1..], tail))
  }

  function TakeTagged(tags: Bytes, s: Bytes): (r: Option<(seq<Bytes>, Bytes)>)
    ensures r.Some? ==> |r.value.0| == |tags| && AllShort(r.value.0)
    ensures r.Some? ==> s == Tagged(tags, r.value.0, r.value.1)
  {
    if tags == [] then Some(([], s))
    else if s == [] || s[0] != tags[0] then None
    else
      var f := TakeField(s[1..]);
      if f.None? then None
      else
        var r := TakeTagged(tags[1..], f.value.1);
        if r.None? then None
        else
          var all := [f.value.0] + r.value.0;
          assert all[1..] == r.value.0;
          Some((all, r.value.1))
  }

  lemma {:induction false} TakeTaggedBack(tags: Bytes, strings: seq<Bytes>, tail: Bytes)
    requires |tags| == |strings| && AllShort(strings)
    ensures TakeTagged(tags, Tagged(tags, strings, tail)) == Some((strings, tail))
  {
    if tags != [] {
      var rest, whole := Tagged(tags[1..], strings[1..], tail), Tagged(tags, strings, tail);
      TakeTaggedBack(tags[1..], strings[1..], tail);
      TakeFieldBack(strings[0], rest);
      assert whole[0] == tags[0] && whole[1..] == Field(strings[0]) + rest;
      assert [strings[0]] + strings[1..] == strings;
    } else {
      assert strings == [];
    }
  }

  // ---------- the payload and the whole file ----------

  function PayloadField(payload: Bytes): Bytes
    requires FitsPayload(payload)
  {
    [PAYLOAD_TAG] + (U32(|payload|) + payload)
  }

  /** Tag, 32-bit length, and exactly that many bytes to the end. */
  function TakePayload(s: Bytes): (r: Option<Bytes>)
    ensures r.Some? ==> FitsPayload(r.value) && s == PayloadField(r.value)
  {
    if |s| < 5 || s[0] != PAYLOAD_TAG || |s| - 5 != FromU32(s[1..]) then None
    else
      assert s == [s[0]] + (s[1..][..4] + s[5..]);
      Some(s[5..])
  }

  lemma TakePayloadBack(payload: Bytes)
    requires FitsPayload(payload)
    ensures TakePayload(PayloadField(payload)) == Some(payload)
  {
    var s := PayloadField(payload);
    FromU32Back(|payload|, payload);
    assert s[1..] == U32(|payload|) + payload && s[5..] == payload;
  }

  function Encode(h: Header, payload: Bytes): Bytes
    requires FitsHeader(h) && FitsPayload(payload)
  {
    Field(h.magic) + (U16(h.flag) + Tagged(TAGS, h.strings, PayloadField(payload)))
  }

  function Parse(data: Bytes): (r: Option<(Header, Bytes)>)
    ensures r.Some? ==> && FitsHeader(r.value.0) && FitsPayload(r.value.1)
                        && data == Encode(r.value.0, r.value.1)
  {
    var m := TakeField(data);
    if m.None? || |m.value.1| < 2 then None
    else
      var flag, rest := FromU16(m.value.1), m.value.1[2..];
      assert m.value.1 == m.value.1[..2] + rest;
      var f := TakeTagged(TAGS, rest);
      if f.None? then None
      else
        var p := TakePayload(f.value.1);
        if p.None? then None else Some((Header(m.value.0, flag, f.value.0), p.value))
  }

  /** Parsing an encoding gives back its fields and its payload. */
  lemma ParseOfEncode(h: Header, payload: Bytes)
    requires FitsHeader(h) && FitsPayload(payload)
    ensures Parse(Encode(h, payload)) == Some((h, payload))
  {
    var fields := Tagged(TAGS, h.strings, PayloadField(payload));
    var rest := U16(h.flag) + fields;
    TakeFieldBack(h.magic, rest);
    FromU16Back(h.flag, fields);
    assert rest[2..] == fields;
    TakeTaggedBack(TAGS, h.strings, PayloadField(payload));
    TakePayloadBack(payload);
  }

  // ---------- the ZynqMP converter ----------

  predicate OccursAt(data: Bytes, i: int) {
    0 <= i && i + 4 <= |data| && data[i..i + 4] == SYNC
  }

  /** The sync word lies within the first 256 bytes. */
  ghost predicate Native(payload: Bytes) {
    exists i :: 0 <= i <= 252 && OccursAt(payload, i)
  }

  ghost predicate IsBitFile(data: Bytes, h: Header, payload: Bytes) {
    FitsHeader(h) && FitsPayload(payload) && data == Encode(h, payload) && Native(payload)
  }

  /** What is left after the tagged fields; a ghost view of the cursor walk. */
  ghost function Rest(tags: Bytes, s: Bytes): Option<Bytes> {
    var r := TakeTagged(tags, s);
    if r.None? then None else Some(r.value.1)
  }

  lemma RestStep(tags: Bytes, s: Bytes)
    requires tags != [] && |s| >= 3 && s[0] == tags[0]
    ensures var n := FromU16(s[1..]);
            Rest(tags, s) == if 3 + n <= |s| then Rest(tags[1..], s[3 + n..]) else None
  {
    var n := FromU16(s[1..]);
    if 3 + n <= |s| {
      assert s[1..][2 + n..] == s[3 + n..];
    }
  }

  lemma RestFails(tags: Bytes, s: Bytes)
    requires tags != [] && (|s| < 3 || s[0] != tags[0])
    ensures Rest(tags, s) == None
  {
  }

  /** The same at a cursor. */
  lemma CursorStep(tags: Bytes, i: nat, data: Bytes, at: nat)
    requires i < |tags| && at + 3 <= |data| && data[at] == tags[i]
    ensures var next := at + 3 + FromU16(data[at + 1..]);
            Rest(tags[i..], data[at..]) == if next <= |data| then Rest(tags[i + 1..], data[next..]) else None
  {
    RestStep(tags[i..], data[at..]);
    assert data[at..][1..] == data[at + 1..] && tags[i..][1..] == tags[i + 1..];
    var next := at + 3 + FromU16(data[at + 1..]);
    if next <= |data| {
      assert data[at..][next - at..] == data[next..];
    }
  }

  /** Moves the cursor over the tagged fields; it may end up past the end of the file. */
  method WalkFields(tags: Bytes, data: Bytes, start: nat) returns (pos: Option<nat>)
    requires start <= |data|
    ensures Rest(tags, data[start..]) ==
            if pos.Some? && pos.value <= |data| then Some(data[pos.value..]) else None
  {
    var at: nat := start;
    for i := 0 to |tags|
      invariant Rest(tags, data[start..]) == if at <= |data| then Rest(tags[i..], data[at..]) else None
    {
      if at >= |data| {
        if at == |data| {
          RestFails(tags[i..], data[at..]);
        }
        return None;
      }
      if data[at] != tags[i] || at + 3 > |data| {
        RestFails(tags[i..], data[at..]);
        return None;
      }
      CursorStep(tags, i, data, at);
      at := at + 3 + FromU16(data[at + 1..]);
    }
    return Some(at);
  }

  method WalkPayload(data: Bytes, pos: nat) returns (r: Option<Bytes>)
    ensures r == if pos <= |data| then TakePayload(data[pos..]) else None
  {
    if pos >= |data| || data[pos] != PAYLOAD_TAG || pos + 5 > |data| {
      return None;
    }
    var n := FromU32(data[pos + 1..]);
    var payload := data[pos + 5..];
    assert data[pos..][1..] == data[pos + 1..] && data[pos..][5..] == payload;
    return if |payload| != n then None else Some(payload);
  }

  /** The cursor walk finds the payload of exactly the files that are encodings. */
  method ParsePayload(data: Bytes) returns (r: Option<Bytes>)
    ensures r == match Parse(data) case None => None case Some(hp) => Some(hp.1)
  {
    if |data| < 2 {
      return None;
    }
    var pos := 2 + FromU16(data) + 2;
    if pos > |data| {
      return None;
    }
    assert TakeField(data).value.1[2..] == data[pos..];
    var end := WalkFields(TAGS, data, pos);
    if end.None? {
      return None;
    }
    r := WalkPayload(data, end.value);
  }

  method FindEarlySync(payload: Bytes) returns (found: bool)
    ensures found <==> Native(payload)
  {
    var i := 0;
    while i <= 252 && i + 4 <= |payload|
      invariant 0 <= i <= 253
      invariant forall k :: 0 <= k < i ==> !OccursAt(payload, k)
    {
      if payload[i..i + 4] == SYNC {
        assert OccursAt(payload, i);
        return true;
      }
      i := i + 1;
    }
    return false;
  }

  /**
   Accepts a file iff it encodes some fields and some payload with an early sync word, and returns
   exactly that payload.
   */
  method ConvertZynqMp(data: Bytes) returns (r: Option<Bytes>)
    ensures r.Some? ==> exists h :: IsBitFile(data, h, r.value)
    ensures forall h, p :: IsBitFile(data, h, p) ==> r == Some(p)
  {
    r := ParsePayload(data);
    forall h, p | IsBitFile(data, h, p)
      ensures r == Some(p)
    {
      ParseOfEncode(h, p);
    }
    if r.Some? {
      var native := FindEarlySync(r.value);
      if native {
        assert IsBitFile(data, Parse(data).value.0, r.value);
      } else {
        r := None;
      }
    }
  }

  // ---------- accepted files are prefix free ----------

  lemma FieldPrefix(s: Bytes, t: Bytes, u: Bytes, v: Bytes)
    requires |s| < 0x1_0000 && |t| < 0x1_0000 && Field(s) + u <= Field(t) + v
    ensures s == t && u <= v
  {
    var x, y := Field(s) + u, Field(t) + v;
    assert x == U16(|s|) + (s + u) && y == U16(|t|) + (t + v);
    FromU16Back(|s|, s + u);
    FromU16Back(|t|, t + v);
    assert x[0] == y[0] && x[1] == y[1];
    assert x[2..2 + |s|] == s && y[2..2 + |t|] == t;
    assert x[2 + |s|..] == u && y[2 + |t|..] == v;
  }

  lemma {:induction false} TaggedPrefix(tags: Bytes, s: seq<Bytes>, t: seq<Bytes>, u: Bytes, v: Bytes)
    requires |s| == |t| == |tags| && AllShort(s) && AllShort(t) && Tagged(tags, s, u) <= Tagged(tags, t, v)
    ensures s == t && u <= v
  {
    if tags != [] {
      var x, y := Tagged(tags[1..], s[1..], u), Tagged(tags[1..], t[1..], v);
      assert Tagged(tags, s, u)[1..] == Field(s[0]) + x && Tagged(tags, t, v)[1..] == Field(t[0]) + y;
      FieldPrefix(s[0], t[0], x, y);
      TaggedPrefix(tags[1..], s[1..], t[1..], u, v);
      assert s == [s[0]] + s[1..] && t == [t[0]] + t[1..];
    }
  }

  lemma PayloadPrefix(p: Bytes, q: Bytes)
    requires FitsPayload(p) && FitsPayload(q) && PayloadField(p) <= PayloadField(q)
    ensures p == q
  {
    var x, y := PayloadField(p), PayloadField(q);
    FromU32Back(|p|, p);
    FromU32Back(|q|, q);
    assert x[1..] == U32(|p|) + p && y[1..] == U32(|q|) + q;
    assert x[1..][..4] == y[1..][..4];
    assert U32(|p|) == U32(|q|);
    FromU32Back(|p|, []);
    FromU32Back(|q|, []);
    assert x[5..] == p && y[5..] == q;
  }

  /** No accepted file is a strict prefix, or an extension, of another accepted file. */
  lemma AcceptedFilesArePrefixFree(x: Bytes, y: Bytes, hx: Header, px: Bytes, hy: Header, py: Bytes)
    requires IsBitFile(x, hx, px) && IsBitFile(y, hy, py) && x <= y
    ensures x == y && hx == hy && px == py
  {
    var tx, ty := Tagged(TAGS, hx.strings, PayloadField(px)), Tagged(TAGS, hy.strings, PayloadField(py));
    FieldPrefix(hx.magic, hy.magic, U16(hx.flag) + tx, U16(hy.flag) + ty);
    assert (U16(hx.flag) + tx)[2..] == tx && (U16(hy.flag) + ty)[2..] == ty;
    TaggedPrefix(TAGS, hx.strings, hy.strings, PayloadField(px), PayloadField(py));
    PayloadPrefix(px, py);
    ParseOfEncode(hx, px);
    ParseOfEncode(hy, py);
  }

  // ---------- the bytes ----------

  /** Lengths and the flag are big-endian. */
  lemma BigEndian16(n: int)
    requires 0 <= n < 0x1_0000
    ensures |U16(n)| == 2 && n == U16(n)[0] as int * 256 + U16(n)[1] as int
  {
  }

  /** So is the payload length. */
  lemma BigEndian32(n: int)
    requires 0 <= n < 0x1_0000_0000
    ensures var b := U32(n);
            |b| == 4 && n == ((b[0] as int * 256 + b[1] as int) * 256 + b[2] as int) * 256 + b[3] as int
  {
    BigEndian16(n / 0x1_0000);
    BigEndian16(n % 0x1_0000);
  }

  /** A field is its length and its bytes. */
  lemma FieldLayout(s: Bytes)
    requires |s| < 0x1_0000
    ensures |Field(s)| == |s| + 2 && Field(s)[0] as int * 256 + Field(s)[1] as int == |s| && Field(s)[2..] == s
  {
    BigEndian16(|s|);
  }

  /** The whole file, field by field, with the key bytes a, b, c, d and e. */
  lemma EncodeLayout(h: Header, p: Bytes)
    requires FitsHeader(h) && FitsPayload(p)
    ensures var s := h.strings;
            Encode(h, p) ==
            Field(h.magic) + (U16(h.flag)
            + ([0x61] + (Field(s[0]) + ([0x62] + (Field(s[1])
            + ([0x63] + (Field(s[2]) + ([0x64] + (Field(s[3])
            + ([0x65] + (U32(|p|) + p)))))))))))
  {
    var s, t := h.strings, TAGS;
    assert t[0] == 0x61 && t[1..][0] == 0x62 && t[2..][0] == 0x63 && t[3..][0] == 0x64;
    assert t[1..][1..] == t[2..] && t[2..][1..] == t[3..] && |t[3..]| == 1;
    assert s[1..][1..] == s[2..] && s[2..][1..] == s[3..];
    var tail := PayloadField(p);
    TaggedOnce(t[3..], s[3..], tail);
    TaggedOnce(t[2..], s[2..], tail);
    TaggedOnce(t[1..], s[1..], tail);
    TaggedOnce(t, s, tail);
    assert Tagged(t[3..][1..], s[3..][1..], tail) == tail;
  }

  lemma TaggedOnce(tags: Bytes, strings: seq<Bytes>, tail: Bytes)
    requires |tags| == |strings| > 0 && AllShort(strings)
    ensures Tagged(tags, strings, tail) == [tags[0]] + (Field(strings[0]) + Tagged(tags[1..], strings[1..], tail))
  {
  }

  lemma SyncBytes(data: Bytes, i: nat)
    requires i + 4 <= |data|
    ensures OccursAt(data, i) <==>
            data[i] == 0xAA && data[i + 1] == 0x99 && data[i + 2] == 0x55 && data[i + 3] == 0x66
  {
    assert data[i..i + 4] == [data[i], data[i + 1], data[i + 2], data[i + 3]];
  }
}
