/** Collecting the registers of an RDL tree and laying them out as a C struct with reserved gaps. */
module RdlLayout {
  import opened Common

  datatype Node =
    | Container(name: string, offset: nat, children: seq<Node>)
    | Register(name: string, offset: nat)
    | RegisterArray(name: string, offset: nat, size: nat, stride: nat)

  datatype Reg = Reg(name: string, offset: nat)

  // ---------- collecting ----------

  function Element(n: Node, prefix: string, base: nat, k: nat, cname: string -> string): Reg
    requires n.RegisterArray?
  {
    Reg(prefix + cname(n.name) + "_" + Decimal(k), base + n.offset + k * n.stride)
  }

  function Elements(n: Node, prefix: string, base: nat, count: nat, cname: string -> string): seq<Reg>
    requires n.RegisterArray?
  {
    if count == 0 then []
    else Elements(n, prefix, base, count - 1, cname) + [Element(n, prefix, base, count - 1, cname)]
  }

  function CollectNode(n: Node, prefix: string, base: nat, cname: string -> string): seq<Reg>
    decreases n, 1
  {
    match n
    case Container(name, offset, children) => Collect(children, prefix + cname(name) + "_", base + offset, cname)
    case Register(name, offset) => [Reg(prefix + cname(name), base + offset)]
    case RegisterArray(_, _, size, _) => Elements(n, prefix, base, size, cname)
  }

  function Collect(nodes: seq<Node>, prefix: string, base: nat, cname: string -> string): seq<Reg>
    decreases nodes, 0
  {
    if nodes == [] then [] else CollectNode(nodes[0], prefix, base, cname) + Collect(nodes[1..], prefix, base, cname)
  }

  lemma CollectStep(nodes: seq<Node>, i: nat, prefix: string, base: nat, cname: string -> string)
    requires i < |nodes|
    ensures Collect(nodes[i..], prefix, base, cname) ==
            CollectNode(nodes[i], prefix, base, cname) + Collect(nodes[i + 1..], prefix, base, cname)
  {
    assert nodes[i..][1..] == nodes[i + 1..];
  }

  /** The recursive walk, extending one list. */
  method CollectRegisters(nodes: seq<Node>, prefix: string, base: nat, cname: string -> string)
    returns (regs: seq<Reg>)
    ensures regs == Collect(nodes, prefix, base, cname)
    decreases nodes
  {
    regs := [];
    for i := 0 to |nodes|
      invariant regs + Collect(nodes[i..], prefix, base, cname) == Collect(nodes, prefix, base, cname)
    {
      var n := nodes[i];
      var more: seq<Reg> := [];
      CollectStep(nodes, i, prefix, base, cname);
      if n.Container? {
        more := CollectRegisters(n.children, prefix + cname(n.name) + "_", base + n.offset, cname);
      } else if n.Register? {
        more := [Reg(prefix + cname(n.name), base + n.offset)];
      } else {
        for k := 0 to n.size
          invariant more == Elements(n, prefix, base, k, cname)
        {
          more := more + [Element(n, prefix, base, k, cname)];
        }
      }
      assert more == CollectNode(n, prefix, base, cname);
      assert regs + (more + Collect(nodes[i + 1..], prefix, base, cname)) ==
             regs + more + Collect(nodes[i + 1..], prefix, base, cname);
      regs := regs + more;
    }
  }

  // ---------- well placed trees ----------

  /** End of a node relative to its parent. */
  function NodeEnd(n: Node): nat
    decreases n, 1
  {
    match n
    case Container(_, offset, children) => offset + ListEnd(children, 0)
    case Register(_, offset) => offset + 4
    case RegisterArray(_, offset, size, stride) => offset + Extent(size, stride)
  }

  function ListEnd(nodes: seq<Node>, lo: nat): nat
    decreases nodes, 0
  {
    if nodes == [] then lo else ListEnd(nodes[1..], NodeEnd(nodes[0]))
  }

  predicate NodeOk(n: Node)
    decreases n, 1
  {
    && n.offset % 4 == 0
    && match n
       case Container(_, _, children) => Placed(children, 0)
       case Register(_, _) => true
       case RegisterArray(_, _, _, stride) => stride % 4 == 0 && stride >= 4
  }

  /** Siblings are word aligned, in address order and do not overlap, at every level. */
  predicate Placed(nodes: seq<Node>, lo: nat)
    decreases nodes, 0
  {
    nodes == [] || (lo <= nodes[0].offset && NodeOk(nodes[0]) && Placed(nodes[1..], NodeEnd(nodes[0])))
  }

  // ---------- collected lists ----------

  /** Word-aligned registers in [lo, hi), each ending before the next begins. */
  predicate Laid(regs: seq<Reg>, lo: nat, hi: nat) {
    && lo <= hi && lo % 4 == 0 && hi % 4 == 0
    && (forall i :: 0 <= i < |regs| ==> regs[i].offset % 4 == 0 && lo <= regs[i].offset && regs[i].offset + 4 <= hi)
    && (forall i, j :: 0 <= i < j < |regs| ==> regs[i].offset + 4 <= regs[j].offset)
  }

  lemma LaidConcat(a: seq<Reg>, b: seq<Reg>, lo: nat, mid: nat, hi: nat)
    requires Laid(a, lo, mid) && Laid(b, mid, hi)
    ensures Laid(a + b, lo, hi)
  {
  }

  lemma LaidWiden(regs: seq<Reg>, lo: nat, mid: nat, hi: nat)
    requires Laid(regs, lo, mid) && mid <= hi && hi % 4 == 0
    ensures Laid(regs, lo, hi)
  {
  }

  lemma LaidFrom(regs: seq<Reg>, lo: nat, mid: nat, hi: nat)
    requires Laid(regs, mid, hi) && lo <= mid && lo % 4 == 0
    ensures Laid(regs, lo, hi)
  {
  }

  lemma LaidOne(r: Reg)
    requires r.offset % 4 == 0
    ensures Laid([r], r.offset, r.offset + 4)
  {
  }

  /** Bytes taken by the first `count` elements of an array. */
  function Extent(count: nat, stride: nat): nat {
    if count == 0 then 0 else if count == 1 then 4 else Extent(count - 1, stride) + stride
  }

  lemma {:induction false} ExtentIs(count: nat, stride: nat)
    requires count > 0
    ensures Extent(count, stride) == (count - 1) * stride + 4
  {
    if count > 1 {
      ExtentIs(count - 1, stride);
      assert (count - 1) * stride == (count - 2) * stride + stride;
    }
  }

  lemma ExtentStep(count: nat, stride: nat) returns (at: nat)
    requires count > 0 && stride % 4 == 0 && stride >= 4
    ensures at == (count - 1) * stride && at % 4 == 0
    ensures Extent(count - 1, stride) <= at && Extent(count, stride) == at + 4
  {
    at := (count - 1) * stride;
    MultipleOfFour(count - 1, stride);
    ExtentIs(count, stride);
  }

  lemma Aligned(a: nat, b: nat)
    requires a % 4 == 0 && b % 4 == 0
    ensures (a + b) % 4 == 0 && (a + b + 4) % 4 == 0
  {
  }

  lemma LaidAppend(front: seq<Reg>, r: Reg, lo: nat, end: nat, at: nat)
    requires Laid(front, lo, lo + end) && end <= at && at % 4 == 0 && r.offset == lo + at
    ensures Laid(front + [r], lo, lo + at + 4)
  {
    Aligned(lo, at);
    LaidWiden(front, lo, lo + end, lo + at);
    LaidOne(r);
    LaidConcat(front, [r], lo, lo + at, lo + at + 4);
  }

  lemma {:induction false} LaidElements(n: Node, prefix: string, base: nat, count: nat, cname: string -> string)
    requires n.RegisterArray? && NodeOk(n) && base % 4 == 0
    ensures var at := base + n.offset;
            Laid(Elements(n, prefix, base, count, cname), at, at + Extent(count, n.stride))
  {
    if count > 0 {
      var front, last := Elements(n, prefix, base, count - 1, cname), Element(n, prefix, base, count - 1, cname);
      LaidElements(n, prefix, base, count - 1, cname);
      var at := ExtentStep(count, n.stride);
      assert last.offset == base + n.offset + at;
      LaidAppend(front, last, base + n.offset, Extent(count - 1, n.stride), at);
      assert Elements(n, prefix, base, count, cname) == front + [last];
    } else {
      Aligned(base, n.offset);
    }
  }

  lemma MultipleOfFour(k: nat, stride: nat)
    requires stride % 4 == 0
    ensures k * stride % 4 == 0
  {
    var w := stride / 4;
    assert k * (4 * w) == 4 * (k * w);
  }

  lemma {:induction false} LaidNode(n: Node, prefix: string, base: nat, cname: string -> string)
    requires NodeOk(n) && base % 4 == 0
    ensures n.offset <= NodeEnd(n) && Laid(CollectNode(n, prefix, base, cname), base + n.offset, base + NodeEnd(n))
    decreases n, 1
  {
    match n
    case Container(name, offset, children) =>
      LaidContainer(n, prefix, base, cname);
    case Register(name, offset) =>
      LaidOne(Reg(prefix + cname(name), base + offset));
    case RegisterArray(_, _, _, _) =>
      LaidArray(n, prefix, base, cname);
  }

  lemma {:induction false} LaidContainer(n: Node, prefix: string, base: nat, cname: string -> string)
    requires n.Container? && NodeOk(n) && base % 4 == 0
    ensures n.offset <= NodeEnd(n) && Laid(CollectNode(n, prefix, base, cname), base + n.offset, base + NodeEnd(n))
    decreases n, 0
  {
    var at := base + n.offset;
    LaidList(n.children, prefix + cname(n.name) + "_", at, 0, cname);
    assert base + NodeEnd(n) == at + ListEnd(n.children, 0);
  }

  lemma LaidArray(n: Node, prefix: string, base: nat, cname: string -> string)
    requires n.RegisterArray? && NodeOk(n) && base % 4 == 0
    ensures n.offset <= NodeEnd(n) && Laid(CollectNode(n, prefix, base, cname), base + n.offset, base + NodeEnd(n))
  {
    LaidElements(n, prefix, base, n.size, cname);
  }

  /** For every well placed tree the collected list is strictly ascending, word aligned and without overlap. */
  lemma {:induction false} LaidList(nodes: seq<Node>, prefix: string, base: nat, lo: nat, cname: string -> string)
    requires Placed(nodes, lo) && base % 4 == 0 && lo % 4 == 0
    ensures lo <= ListEnd(nodes, lo)
    ensures Laid(Collect(nodes, prefix, base, cname), base + lo, base + ListEnd(nodes, lo))
    decreases nodes, 0
  {
    if nodes != [] {
      var end := NodeEnd(nodes[0]);
      LaidNode(nodes[0], prefix, base, cname);
      LaidList(nodes[1..], prefix, base, end, cname);
      var head, tail := CollectNode(nodes[0], prefix, base, cname), Collect(nodes[1..], prefix, base, cname);
      LaidFrom(head, base + lo, base + nodes[0].offset, base + end);
      LaidConcat(head, tail, base + lo, base + end, base + ListEnd(nodes, lo));
    }
  }

  // ---------- the struct ----------

  /** A struct member: `words` reserved words named after the byte offset they start at, or one register. */
  datatype Member = Reserved(at: nat, words: nat) | Named(reg: Reg)

  function Bytes4(m: Member): nat {
    if m.Reserved? then 4 * m.words else 4
  }

  /** Offset of the member after these, as a C compiler packs 32-bit members. */
  function SizeOf(ms: seq<Member>): nat {
    if ms == [] then 0 else SizeOf(ms[..|ms| - 1]) + Bytes4(ms[|ms| - 1])
  }

  function PrevEnd(regs: seq<Reg>): nat {
    if regs == [] then 0 else regs[|regs| - 1].offset + 4
  }

  function Gap(prevEnd: nat, offset: nat): seq<Member> {
    if offset > prevEnd && (offset - prevEnd) / 4 > 0 then [Reserved(prevEnd, (offset - prevEnd) / 4)] else []
  }

  function Members(regs: seq<Reg>): seq<Member> {
    if regs == [] then []
    else
      var front, last := regs[..|regs| - 1], regs[|regs| - 1];
      Members(front) + Gap(PrevEnd(front), last.offset) + [Named(last)]
  }

  method EmitStruct(regs: seq<Reg>) returns (ms: seq<Member>)
    ensures ms == Members(regs)
  {
    ms := [];
    var prevEnd := 0;
    for i := 0 to |regs|
      invariant ms == Members(regs[..i]) && prevEnd == PrevEnd(regs[..i])
    {
      assert regs[..i + 1][..i] == regs[..i];
      if regs[i].offset > prevEnd {
        var words := (regs[i].offset - prevEnd) / 4;
        if words > 0 {
          ms := ms + [Reserved(prevEnd, words)];
        }
      }
      ms := ms + [Named(regs[i])];
      prevEnd := regs[i].offset + 4;
    }
    assert regs[..|regs|] == regs;
  }

  lemma {:induction false} SizeOfSplits(a: seq<Member>, b: seq<Member>)
    ensures SizeOf(a + b) == SizeOf(a) + SizeOf(b)
  {
    if b == [] {
      assert a + b == a;
    } else {
      SizeOfSplits(a, b[..|b| - 1]);
      assert (a + b)[..|a + b| - 1] == a + b[..|b| - 1];
    }
  }

  /** Every register member sits at its register's offset. */
  predicate Faithful(ms: seq<Member>) {
    forall k :: 0 <= k < |ms| && ms[k].Named? ==> SizeOf(ms[..k]) == ms[k].reg.offset
  }

  /** Registers are word aligned and none begins before the previous one ends. */
  predicate Spaced(regs: seq<Reg>) {
    forall i :: 0 <= i < |regs| ==> regs[i].offset % 4 == 0 && PrevEnd(regs[..i]) <= regs[i].offset
  }

  lemma SizeOfGap(prevEnd: nat, offset: nat)
    ensures SizeOf(Gap(prevEnd, offset)) == if offset > prevEnd then (offset - prevEnd) / 4 * 4 else 0
  {
    var g := Gap(prevEnd, offset);
    if g != [] {
      assert g[..0] == [];
    }
  }

  lemma FaithfulLast(front: seq<Member>, gap: seq<Member>, last: Reg)
    requires forall k :: 0 <= k < |gap| ==> gap[k].Reserved?
    ensures Faithful(front + gap + [Named(last)]) <==>
            Faithful(front) && SizeOf(front) + SizeOf(gap) == last.offset
  {
    var all := front + gap + [Named(last)];
    assert forall k :: 0 <= k < |front| ==> all[..k] == front[..k] && all[k] == front[k];
    assert forall k :: |front| <= k < |front| + |gap| ==> all[k] == gap[k - |front|];
    assert all[..|front| + |gap|] == front + gap && all[|front| + |gap|] == Named(last);
    SizeOfSplits(front, gap);
  }

  lemma SpacedLast(front: seq<Reg>, last: Reg)
    ensures Spaced(front + [last]) <==> Spaced(front) && last.offset % 4 == 0 && PrevEnd(front) <= last.offset
  {
    var regs := front + [last];
    assert forall i :: 0 <= i < |front| ==> regs[..i] == front[..i] && regs[i] == front[i];
    assert regs[..|front|] == front && regs[|front|] == last;
  }

  /** These members are faithful iff these registers are spaced, and then they fill up to the last one. */
  predicate Matched(regs: seq<Reg>, ms: seq<Member>) {
    && (Faithful(ms) <==> Spaced(regs))
    && (Spaced(regs) ==> SizeOf(ms) == PrevEnd(regs) && PrevEnd(regs) % 4 == 0)
  }

  lemma MatchedLast(front: seq<Reg>, last: Reg, ms: seq<Member>)
    requires Matched(front, ms)
    ensures Matched(front + [last], ms + Gap(PrevEnd(front), last.offset) + [Named(last)])
  {
    var gap, regs := Gap(PrevEnd(front), last.offset), front + [last];
    var all := ms + gap + [Named(last)];
    SpacedLast(front, last);
    FaithfulLast(ms, gap, last);
    SizeOfLast(ms, gap, last);
    assert PrevEnd(regs) == last.offset + 4;
    StillMatched(Spaced(front), Spaced(regs), Faithful(ms), Faithful(all), SizeOf(ms), PrevEnd(front), last.offset);
  }

  /** The same on what was found out about the lists. */
  lemma StillMatched(spaced: bool, spaced': bool, faithful: bool, faithful': bool, size: nat, prevEnd: nat, offset: nat)
    requires faithful == spaced && (spaced ==> size == prevEnd && prevEnd % 4 == 0)
    requires spaced' <==> spaced && offset % 4 == 0 && prevEnd <= offset
    requires faithful' <==> faithful && size + SizeOf(Gap(prevEnd, offset)) == offset
    ensures faithful' == spaced'
    ensures spaced' ==> size + SizeOf(Gap(prevEnd, offset)) + 4 == offset + 4 && (offset + 4) % 4 == 0
  {
    if spaced {
      GapFits(prevEnd, offset);
    }
  }

  lemma {:induction false} MembersMatch(regs: seq<Reg>)
    ensures Matched(regs, Members(regs))
  {
    if regs != [] {
      var front, last := regs[..|regs| - 1], regs[|regs| - 1];
      MembersMatch(front);
      MatchedLast(front, last, Members(front));
      assert regs == front + [last];
    }
  }

  /** The struct puts every register at its own offset exactly when the registers are spaced. */
  lemma StructIsFaithfulIff(regs: seq<Reg>)
    ensures Faithful(Members(regs)) <==> Spaced(regs)
  {
    MembersMatch(regs);
  }

  /** A gap bridges to the offset exactly when that is aligned and not behind. */
  lemma GapFits(prevEnd: nat, offset: nat)
    requires prevEnd % 4 == 0
    ensures prevEnd + SizeOf(Gap(prevEnd, offset)) == offset <==> offset % 4 == 0 && prevEnd <= offset
  {
    SizeOfGap(prevEnd, offset);
  }

  lemma SizeOfLast(front: seq<Member>, gap: seq<Member>, last: Reg)
    ensures SizeOf(front + gap + [Named(last)]) == SizeOf(front) + SizeOf(gap) + 4
  {
    SizeOfSplits(front, gap);
    SizeOfSplits(front + gap, [Named(last)]);
    assert [Named(last)][..0] == [];
    assert SizeOf([Named(last)]) == 4;
  }

  lemma LaidIsSpaced(regs: seq<Reg>, lo: nat, hi: nat)
    requires Laid(regs, lo, hi)
    ensures Spaced(regs)
  {
    forall i | 0 <= i < |regs|
      ensures PrevEnd(regs[..i]) <= regs[i].offset
    {
      if i > 0 {
        assert regs[..i][i - 1] == regs[i - 1];
      }
    }
  }

  /** The registers among the members. */
  function Registers(ms: seq<Member>): seq<Reg> {
    if ms == [] then []
    else Registers(ms[..|ms| - 1]) + (if ms[|ms| - 1].Named? then [ms[|ms| - 1].reg] else [])
  }

  lemma RegistersOfLast(front: seq<Member>, gap: seq<Member>, last: Reg)
    requires |gap| <= 1 && forall k :: 0 <= k < |gap| ==> gap[k].Reserved?
    ensures Registers(front + gap + [Named(last)]) == Registers(front) + [last]
  {
    var padded := front + gap;
    assert (padded + [Named(last)])[..|padded|] == padded;
    if gap == [] {
      assert padded == front;
    } else {
      assert padded[..|front|] == front;
    }
  }

  /** Apart from padding the struct has exactly the registers, each once and in order. */
  lemma {:induction false} MembersAreRegisters(regs: seq<Reg>)
    ensures Registers(Members(regs)) == regs
  {
    if regs != [] {
      var front, last := regs[..|regs| - 1], regs[|regs| - 1];
      var gap := Gap(PrevEnd(front), last.offset);
      MembersAreRegisters(front);
      calc {
        Registers(Members(regs));
        Registers(Members(front) + gap + [Named(last)]);
        { RegistersOfLast(Members(front), gap, last); }
        Registers(Members(front)) + [last];
        front + [last];
      }
    }
  }

  /**
   For every well placed tree the generated struct has exactly the collected registers, in order, each
   at its own offset, and those are spaced.
   */
  lemma TreeStructIsFaithful(nodes: seq<Node>, prefix: string, cname: string -> string)
    requires Placed(nodes, 0)
    ensures var regs := Collect(nodes, prefix, 0, cname);
            Faithful(Members(regs)) && Registers(Members(regs)) == regs && Spaced(regs)
  {
    MembersAreRegisters(Collect(nodes, prefix, 0, cname));
    LaidList(nodes, prefix, 0, 0, cname);
    LaidIsSpaced(Collect(nodes, prefix, 0, cname), 0, ListEnd(nodes, 0));
    StructIsFaithfulIff(Collect(nodes, prefix, 0, cname));
  }

  // ---------- names of the gaps ----------

  function HexDigit(d: nat): char
    requires d < 16
  {
    "0123456789ABCDEF"[d]
  }

  function Hex(n: nat): (s: string)
    ensures |s| > 0
  {
    if n < 16 then [HexDigit(n)] else Hex(n / 16) + [HexDigit(n % 16)]
  }

  /** At least three digits. */
  function Hex3(n: nat): string {
    var s := Hex(n);
    if |s| == 1 then "00" + s else if |s| == 2 then "0" + s else s
  }

  function ReservedName(m: Member): string
    requires m.Reserved?
  {
    "RESERVED_" + Hex3(m.at)
  }

  function DigitValue(c: char): nat {
    if '0' <= c <= '9' then c as int - '0' as int
    else if 'A' <= c <= 'F' then c as int - 'A' as int + 10
    else 0
  }

  function HexValue(s: string): nat {
    if s == "" then 0 else HexValue(s[..|s| - 1]) * 16 + DigitValue(s[|s| - 1])
  }

  lemma {:induction false} HexRoundTrip(n: nat)
    ensures HexValue(Hex(n)) == n
  {
    if n < 16 {
      DigitRoundTrip(n);
      assert Hex(n)[..0] == "";
    } else {
      HexRoundTrip(n / 16);
      DigitRoundTrip(n % 16);
      assert Hex(n)[..|Hex(n)| - 1] == Hex(n / 16);
    }
  }

  lemma DigitRoundTrip(d: nat)
    requires d < 16
    ensures DigitValue(HexDigit(d)) == d
  {
  }

  lemma {:induction false} LeadingZero(s: string)
    ensures HexValue("0" + s) == HexValue(s)
  {
    if s == "" {
      assert ("0" + s)[..0] == "";
    } else {
      LeadingZero(s[..|s| - 1]);
      assert ("0" + s)[..|s|] == "0" + s[..|s| - 1];
    }
  }

  lemma Hex3RoundTrip(n: nat)
    ensures HexValue(Hex3(n)) == n
  {
    var s := Hex(n);
    HexRoundTrip(n);
    LeadingZero(s);
    LeadingZero("0" + s);
    assert "00" + s == "0" + ("0" + s);
  }

  lemma {:induction false} ReservedBelowEnd(regs: seq<Reg>)
    requires Spaced(regs)
    ensures forall k :: 0 <= k < |Members(regs)| && Members(regs)[k].Reserved? ==> Members(regs)[k].at < PrevEnd(regs)
    ensures forall j, k :: 0 <= j < k < |Members(regs)| && Members(regs)[j].Reserved? && Members(regs)[k].Reserved? ==>
                             Members(regs)[j].at < Members(regs)[k].at
  {
    if regs != [] {
      var front, last := regs[..|regs| - 1], regs[|regs| - 1];
      assert regs == front + [last];
      SpacedLast(front, last);
      ReservedBelowEnd(front);
    }
  }

  /** No two gaps of a generated struct have the same name. */
  lemma ReservedNamesAreUnique(regs: seq<Reg>, j: nat, k: nat)
    requires Spaced(regs) && j < k < |Members(regs)| && Members(regs)[j].Reserved? && Members(regs)[k].Reserved?
    ensures ReservedName(Members(regs)[j]) != ReservedName(Members(regs)[k])
  {
    ReservedBelowEnd(regs);
    var a, b := Members(regs)[j], Members(regs)[k];
    Hex3RoundTrip(a.at);
    Hex3RoundTrip(b.at);
    assert ReservedName(a)[9..] == Hex3(a.at) && ReservedName(b)[9..] == Hex3(b.at);
  }

  /** In the struct of a well placed tree no two gaps have the same name. */
  lemma TreeReservedNamesAreUnique(nodes: seq<Node>, prefix: string, cname: string -> string, j: nat, k: nat)
    requires Placed(nodes, 0)
    requires var ms := Members(Collect(nodes, prefix, 0, cname)); j < k < |ms| && ms[j].Reserved? && ms[k].Reserved?
    ensures var ms := Members(Collect(nodes, prefix, 0, cname)); ReservedName(ms[j]) != ReservedName(ms[k])
  {
    TreeStructIsFaithful(nodes, prefix, cname);
    ReservedNamesAreUnique(Collect(nodes, prefix, 0, cname), j, k);
  }

  /** A gap is named after the offset it starts at. */
  lemma {:induction false} ReservedAtOffset(regs: seq<Reg>, k: nat)
    requires Spaced(regs) && k < |Members(regs)| && Members(regs)[k].Reserved?
    ensures Members(regs)[k].at == SizeOf(Members(regs)[..k])
  {
    var front, last := regs[..|regs| - 1], regs[|regs| - 1];
    assert regs == front + [last];
    SpacedLast(front, last);
    MembersMatch(front);
    var before := Members(front);
    if k < |before| {
      ReservedAtOffset(front, k);
      assert Members(regs)[..k] == before[..k];
    } else {
      assert Members(regs)[..k] == before;
    }
  }
}
