/**
 Transitive expansion of nested includes with one seen-set shared by the whole walk. The expansion
 succeeds exactly when the naive textual unfolding is a finite tree that reads no file twice.
 */
module FlistIncludes {
  import opened Common
  import opened FlistParse
  import opened FlistLaws

  /**
   The file system as the walk sees it: file contents by real path, the real path of a path, and where
   an include record points (none when a variable it needs is unset).
   */
  datatype Disk = Disk(files: map<string, seq<string>>, realpath: string -> string, target: Id -> Option<string>,
                       root: string)
  {
    function Real(path: string): string {
      realpath(path)
    }

    /** The file's lines parse without a fault. */
    predicate Readable(path: string) {
      Real(path) in files && FaultFree(Tokens(files[Real(path)]))
    }

    function Entries(path: string): seq<Record>
      requires Readable(path)
    {
      Records(Tokens(files[Real(path)]), path, Naming(root))
    }

    function Remarks(path: string): seq<Note>
      requires Readable(path)
    {
      Notes(Tokens(files[Real(path)]))
    }

    /** Where the walk goes at a record, if anywhere. */
    function Followed(r: Record): Option<string> {
      if r.id.kind != Include then None
      else match target(r.id)
        case None => None
        case Some(path) => if Real(path) in files then Some(path) else None
    }
  }

  // ---------- the walk ----------

  datatype Outcome = Fail | Done(records: seq<Record>, comments: seq<Note>, seen: set<string>)

  function Unseen(d: Disk, seen: set<string>): set<string> {
    d.files.Keys - seen
  }

  lemma UnseenShrinks(d: Disk, seen: set<string>, more: set<string>)
    requires seen <= more
    ensures |Unseen(d, more)| <= |Unseen(d, seen)|
    ensures forall r :: r in d.files && r !in seen && r in more ==> |Unseen(d, more)| < |Unseen(d, seen)|
  {
    var small, big := Unseen(d, more), Unseen(d, seen);
    assert small <= big;
    SubsetSize(small, big);
    forall r | r in d.files && r !in seen && r in more
      ensures |small| < |big|
    {
      SubsetSize(small, big - {r});
    }
  }

  function Expand(d: Disk, path: string, seen: set<string>): (o: Outcome)
    ensures o.Done? ==> seen <= o.seen
    decreases |Unseen(d, seen)|, 1, 0
  {
    if d.Real(path) in seen || !d.Readable(path) then Fail
    else
      UnseenShrinks(d, seen, seen + {d.Real(path)});
      match ExpandAll(d, d.Entries(path), seen + {d.Real(path)})
      case Fail => Fail
      case Done(records, comments, after) => Done(records, d.Remarks(path) + comments, after)
  }

  /** The records of one file, each followed by the expansion it includes. */
  function ExpandAll(d: Disk, rs: seq<Record>, seen: set<string>): (o: Outcome)
    ensures o.Done? ==> seen <= o.seen
    decreases |Unseen(d, seen)|, 2, |rs|
  {
    if rs == [] then Done([], [], seen)
    else match ExpandAll(d, rs[..|rs| - 1], seen)
      case Fail => Fail
      case Done(records, comments, mid) =>
        var r := rs[|rs| - 1];
        match d.Followed(r)
        case None => Done(records + [r], comments, mid)
        case Some(path) =>
          UnseenShrinks(d, seen, mid);
          match Expand(d, path, mid)
          case Fail => Fail
          case Done(sub, subComments, after) => Done(records + [r] + sub, comments + subComments, after)
  }

  // ---------- record by record ----------

  lemma ExpandOne(d: Disk, r: Record, seen: set<string>)
    ensures ExpandAll(d, [r], seen) ==
            match d.Followed(r)
            case None => Done([r], [], seen)
            case Some(path) =>
              match Expand(d, path, seen)
              case Fail => Fail
              case Done(sub, comments, after) => Done([r] + sub, comments, after)
  {
    assert [r][..0] == [];
    assert [] + [r] == [r];
  }

  /** A record of any other kind than an include stands for itself and reads nothing. */
  lemma OtherKindsStay(d: Disk, r: Record, seen: set<string>)
    requires r.id.kind != Include
    ensures ExpandAll(d, [r], seen) == Done([r], [], seen)
  {
    ExpandOne(d, r, seen);
  }

  /** So does an include whose variables are unset or whose target does not exist. */
  lemma DeadIncludesStay(d: Disk, r: Record, seen: set<string>)
    requires d.target(r.id) == None || d.realpath(d.target(r.id).value) !in d.files
    ensures ExpandAll(d, [r], seen) == Done([r], [], seen)
  {
    ExpandOne(d, r, seen);
  }

  /** An include whose target exists stands for itself and then everything its target expands to. */
  lemma IncludesAreFollowed(d: Disk, r: Record, seen: set<string>)
    requires r.id.kind == Include && d.target(r.id).Some? && d.realpath(d.target(r.id).value) in d.files
    ensures var o, sub := ExpandAll(d, [r], seen), Expand(d, d.target(r.id).value, seen);
            && (o.Fail? <==> sub.Fail?)
            && (o.Done? ==> o == Done([r] + sub.records, sub.comments, sub.seen))
  {
    ExpandOne(d, r, seen);
  }

  /** One part of an expansion after another; it fails when either does. */
  function Joined(x: Outcome, y: Outcome): Outcome {
    if x.Fail? || y.Fail? then Fail else Done(x.records + y.records, x.comments + y.comments, y.seen)
  }

  /** The expansion of more records after an outcome, which starts from what was seen by then. */
  function After(d: Disk, o: Outcome, rs: seq<Record>): Outcome {
    if o.Fail? then Fail else Joined(o, ExpandAll(d, rs, o.seen))
  }

  lemma ExpandSnoc(d: Disk, rs: seq<Record>, r: Record, seen: set<string>)
    ensures ExpandAll(d, rs + [r], seen) == After(d, ExpandAll(d, rs, seen), [r])
  {
    assert (rs + [r])[..|rs|] == rs;
    if ExpandAll(d, rs, seen).Done? {
      var o := ExpandAll(d, rs, seen);
      ExpandOne(d, r, o.seen);
      assert o.comments + [] == o.comments;
      if d.Followed(r).Some? && Expand(d, d.Followed(r).value, o.seen).Done? {
        var sub := Expand(d, d.Followed(r).value, o.seen);
        assert o.records + [r] + sub.records == o.records + ([r] + sub.records);
      }
    }
  }

  lemma JoinedIsAssociative(x: Outcome, y: Outcome, z: Outcome)
    ensures Joined(Joined(x, y), z) == Joined(x, Joined(y, z))
  {
  }

  /** A list of records expands to its parts, one after the other, and fails as soon as one does. */
  lemma {:induction false} ExpandsInOrder(d: Disk, a: seq<Record>, b: seq<Record>, seen: set<string>)
    ensures ExpandAll(d, a + b, seen) == After(d, ExpandAll(d, a, seen), b)
    decreases |b|
  {
    var x := ExpandAll(d, a, seen);
    if b == [] {
      assert a + b == a;
    } else {
      var front, r := b[..|b| - 1], b[|b| - 1];
      assert a + b == a + front + [r] && b == front + [r];
      ExpandsInOrder(d, a, front, seen);
      ExpandSnoc(d, a + front, r, seen);
      if x.Done? {
        ExpandSnoc(d, front, r, x.seen);
        ThenOneMore(d, x, ExpandAll(d, front, x.seen), r);
      }
    }
  }

  lemma ThenOneMore(d: Disk, x: Outcome, y: Outcome, r: Record)
    requires x.Done?
    ensures After(d, Joined(x, y), [r]) == Joined(x, After(d, y, [r]))
  {
    if y.Done? {
      JoinedIsAssociative(x, y, ExpandAll(d, [r], y.seen));
    }
  }

  /** A file that is read once, exists and parses is its own comments first, then the expansion of its records. */
  lemma FileIsItsRecords(d: Disk, path: string, seen: set<string>)
    ensures var o := Expand(d, path, seen);
            if d.realpath(path) in seen || !d.Readable(path) then o.Fail?
            else
              var all := ExpandAll(d, d.Entries(path), seen + {d.realpath(path)});
              && (o.Fail? <==> all.Fail?)
              && (o.Done? ==> o == Done(all.records, d.Remarks(path) + all.comments, all.seen))
  {
  }

  // ---------- the naive unfolding ----------

  /** One file with everything it includes; a forest has one place per record, in order. */
  datatype Tree = Node(path: string, kids: Forest)

  datatype Forest = Empty | Leaf(front: Forest) | Branch(front: Forest, kid: Tree)

  /** The tree is what textual inclusion unfolds to; nothing limits how often a file occurs. */
  predicate Unfolds(d: Disk, t: Tree)
    decreases t
  {
    d.Readable(t.path) && UnfoldsAll(d, d.Entries(t.path), t.kids)
  }

  predicate UnfoldsAll(d: Disk, rs: seq<Record>, f: Forest)
    decreases f
  {
    match f
    case Empty => rs == []
    case Leaf(front) =>
      rs != [] && d.Followed(rs[|rs| - 1]) == None && UnfoldsAll(d, rs[..|rs| - 1], front)
    case Branch(front, kid) =>
      rs != [] && d.Followed(rs[|rs| - 1]) == Some(kid.path) &&
      Unfolds(d, kid) && UnfoldsAll(d, rs[..|rs| - 1], front)
  }

  /** The pre-order text of an unfolding. */
  function Flat(d: Disk, t: Tree): seq<Record>
    requires Unfolds(d, t)
    decreases t
  {
    FlatAll(d, d.Entries(t.path), t.kids)
  }

  function FlatAll(d: Disk, rs: seq<Record>, f: Forest): seq<Record>
    requires UnfoldsAll(d, rs, f)
    decreases f
  {
    match f
    case Empty => []
    case Leaf(front) => FlatAll(d, rs[..|rs| - 1], front) + [rs[|rs| - 1]]
    case Branch(front, kid) => FlatAll(d, rs[..|rs| - 1], front) + [rs[|rs| - 1]] + Flat(d, kid)
  }

  function Talk(d: Disk, t: Tree): seq<Note>
    requires Unfolds(d, t)
    decreases t
  {
    d.Remarks(t.path) + TalkAll(d, d.Entries(t.path), t.kids)
  }

  function TalkAll(d: Disk, rs: seq<Record>, f: Forest): seq<Note>
    requires UnfoldsAll(d, rs, f)
    decreases f
  {
    match f
    case Empty => []
    case Leaf(front) => TalkAll(d, rs[..|rs| - 1], front)
    case Branch(front, kid) => TalkAll(d, rs[..|rs| - 1], front) + Talk(d, kid)
  }

  /** The files read, in reading order. */
  function Reads(d: Disk, t: Tree): seq<string>
    decreases t
  {
    [d.Real(t.path)] + ReadsAll(d, t.kids)
  }

  function ReadsAll(d: Disk, f: Forest): seq<string>
    decreases f
  {
    match f
    case Empty => []
    case Leaf(front) => ReadsAll(d, front)
    case Branch(front, kid) => ReadsAll(d, front) + Reads(d, kid)
  }

  // ---------- reading every file once ----------

  function Elems(s: seq<string>): set<string> {
    set x | x in s
  }

  /** No repetition, and nothing that was seen before. */
  predicate Clear(s: seq<string>, seen: set<string>) {
    Distinct(s) && forall i :: 0 <= i < |s| ==> s[i] !in seen
  }

  lemma ClearSplits(a: seq<string>, b: seq<string>, seen: set<string>)
    ensures Clear(a + b, seen) <==> Clear(a, seen) && Clear(b, seen + Elems(a))
    ensures seen + Elems(a + b) == seen + Elems(a) + Elems(b)
  {
    if Clear(a + b, seen) {
      ClearParts(a, b, seen);
    }
    if Clear(a, seen) && Clear(b, seen + Elems(a)) {
      ClearWhole(a, b, seen);
    }
  }

  lemma ClearParts(a: seq<string>, b: seq<string>, seen: set<string>)
    requires Clear(a + b, seen)
    ensures Clear(a, seen) && Clear(b, seen + Elems(a))
  {
    var ab := a + b;
    assert forall i :: 0 <= i < |a| ==> a[i] == ab[i];
    assert forall i :: 0 <= i < |b| ==> b[i] == ab[|a| + i];
  }

  lemma ClearWhole(a: seq<string>, b: seq<string>, seen: set<string>)
    requires Clear(a, seen) && Clear(b, seen + Elems(a))
    ensures Clear(a + b, seen)
  {
    var ab := a + b;
    forall i, j | 0 <= i < j < |ab|
      ensures ab[i] != ab[j]
    {
      if i < |a| <= j {
        assert ab[i] in Elems(a);
        assert b[j - |a|] !in seen + Elems(a);
      }
    }
  }

  lemma ClearOne(x: string, seen: set<string>)
    ensures Clear([x], seen) <==> x !in seen
    ensures Elems([x]) == {x}
  {
    assert [x][0] == x;
  }

  /** A forest is unfolded from this state with these results. */
  ghost predicate Matches(o: Outcome, records: seq<Record>, comments: seq<Note>, files: seq<string>,
                          seen: set<string>)
  {
    o == Done(records, comments, seen + Elems(files)) && Clear(files, seen)
  }

  /** A walk that returns has produced the unfolding, reading every file once. */
  lemma {:induction false} ExpandGivesTree(d: Disk, path: string, seen: set<string>) returns (t: Tree)
    requires Expand(d, path, seen).Done?
    ensures t.path == path && Unfolds(d, t)
    ensures Matches(Expand(d, path, seen), Flat(d, t), Talk(d, t), Reads(d, t), seen)
    decreases |Unseen(d, seen)|, 1, 0
  {
    var here := d.Real(path);
    UnseenShrinks(d, seen, seen + {here});
    var kids := ExpandAllGivesForest(d, d.Entries(path), seen + {here});
    t := Node(path, kids);
    ClearOne(here, seen);
    ClearSplits([here], ReadsAll(d, kids), seen);
  }

  lemma {:induction false} ExpandAllGivesForest(d: Disk, rs: seq<Record>, seen: set<string>) returns (f: Forest)
    requires ExpandAll(d, rs, seen).Done?
    ensures UnfoldsAll(d, rs, f)
    ensures Matches(ExpandAll(d, rs, seen), FlatAll(d, rs, f), TalkAll(d, rs, f), ReadsAll(d, f), seen)
    decreases |Unseen(d, seen)|, 2, |rs|
  {
    if rs == [] {
      f := Empty;
    } else {
      var front := ExpandAllGivesForest(d, rs[..|rs| - 1], seen);
      match d.Followed(rs[|rs| - 1]) {
        case None => f := Leaf(front);
        case Some(path) =>
          var mid := seen + Elems(ReadsAll(d, front));
          UnseenShrinks(d, seen, mid);
          var kid := ExpandGivesTree(d, path, mid);
          f := Branch(front, kid);
          ClearSplits(ReadsAll(d, front), Reads(d, kid), seen);
      }
    }
  }

  /** A finite unfolding that repeats no file is what the walk returns. */
  lemma {:induction false} TreeIsExpanded(d: Disk, t: Tree, seen: set<string>)
    requires Unfolds(d, t) && Clear(Reads(d, t), seen)
    ensures Expand(d, t.path, seen) == Done(Flat(d, t), Talk(d, t), seen + Elems(Reads(d, t)))
    decreases t
  {
    var here := d.Real(t.path);
    ClearOne(here, seen);
    ClearSplits([here], ReadsAll(d, t.kids), seen);
    ForestIsExpanded(d, d.Entries(t.path), t.kids, seen + {here});
  }

  lemma {:induction false} ForestIsExpanded(d: Disk, rs: seq<Record>, f: Forest, seen: set<string>)
    requires UnfoldsAll(d, rs, f) && Clear(ReadsAll(d, f), seen)
    ensures ExpandAll(d, rs, seen) == Done(FlatAll(d, rs, f), TalkAll(d, rs, f), seen + Elems(ReadsAll(d, f)))
    decreases f
  {
    match f {
      case Empty =>
      case Leaf(front) => ForestIsExpanded(d, rs[..|rs| - 1], front, seen);
      case Branch(front, kid) =>
        ClearSplits(ReadsAll(d, front), Reads(d, kid), seen);
        ForestIsExpanded(d, rs[..|rs| - 1], front, seen);
        TreeIsExpanded(d, kid, seen + Elems(ReadsAll(d, front)));
    }
  }

  /** The expansion returns exactly when some finite unfolding reads no file twice. */
  lemma ExpandsIff(d: Disk, path: string)
    ensures Expand(d, path, {}).Done? <==> exists t: Tree :: t.path == path && Unfolds(d, t) && Distinct(Reads(d, t))
  {
    if Expand(d, path, {}).Done? {
      var t := ExpandGivesTree(d, path, {});
    }
    forall t: Tree | t.path == path && Unfolds(d, t) && Distinct(Reads(d, t))
      ensures Expand(d, path, {}).Done?
    {
      TreeIsExpanded(d, t, {});
    }
  }

  /** There is only one unfolding of a file. */
  lemma {:induction false} UnfoldingIsUnique(d: Disk, t: Tree, u: Tree)
    requires Unfolds(d, t) && Unfolds(d, u) && t.path == u.path
    ensures t == u
    decreases t
  {
    ForestIsUnique(d, d.Entries(t.path), t.kids, u.kids);
  }

  lemma {:induction false} ForestIsUnique(d: Disk, rs: seq<Record>, f: Forest, g: Forest)
    requires UnfoldsAll(d, rs, f) && UnfoldsAll(d, rs, g)
    ensures f == g
    decreases f
  {
    if rs != [] {
      ForestIsUnique(d, rs[..|rs| - 1], f.front, g.front);
      if f.Branch? {
        UnfoldingIsUnique(d, f.kid, g.kid);
      }
    }
  }

  // ---------- cycles and diamonds ----------

  predicate IncludesAt(d: Disk, rs: seq<Record>, k: nat, q: string) {
    k < |rs| && d.Followed(rs[k]) == Some(q)
  }

  ghost predicate Includes(d: Disk, p: string, q: string) {
    d.Readable(p) && exists k :: 0 <= k < |d.Entries(p)| && IncludesAt(d, d.Entries(p), k, q)
  }

  /** A chain of includes. */
  ghost predicate Chain(d: Disk, ps: seq<string>) {
    ps != [] && forall i :: 0 <= i < |ps| - 1 ==> Includes(d, ps[i], ps[i + 1])
  }

  /** The subtree of record k is part of the forest. */
  lemma {:induction false} KidOf(d: Disk, rs: seq<Record>, f: Forest, k: nat, q: string) returns (kid: Tree)
    requires UnfoldsAll(d, rs, f) && IncludesAt(d, rs, k, q) && Distinct(ReadsAll(d, f))
    ensures Unfolds(d, kid) && kid.path == q && Distinct(Reads(d, kid))
    ensures forall x :: x in Reads(d, kid) ==> x in ReadsAll(d, f)
    decreases f
  {
    if f.Branch? {
      ClearSplits(ReadsAll(d, f.front), Reads(d, f.kid), {});
    }
    if k == |rs| - 1 {
      kid := f.kid;
    } else {
      kid := KidOf(d, rs[..|rs| - 1], f.front, k, q);
    }
  }

  lemma HeadIsApart(x: string, s: seq<string>)
    requires Distinct([x] + s)
    ensures Distinct(s) && x !in s
  {
    ClearSplits([x], s, {});
    ClearOne(x, {});
  }

  /** Along a chain inside a repetition-free unfolding every file is read, each a different one. */
  lemma {:induction false} ChainIsRead(d: Disk, t: Tree, ps: seq<string>)
    requires Unfolds(d, t) && Distinct(Reads(d, t)) && Chain(d, ps) && ps[0] == t.path
    ensures forall i :: 0 <= i < |ps| ==> d.Real(ps[i]) in Reads(d, t)
    ensures forall i, j :: 0 <= i < j < |ps| ==> d.Real(ps[i]) != d.Real(ps[j])
    decreases |ps|
  {
    if |ps| > 1 {
      var rs := d.Entries(t.path);
      assert Includes(d, ps[0], ps[1]);
      var k :| 0 <= k < |rs| && IncludesAt(d, rs, k, ps[1]);
      HeadIsApart(d.Real(t.path), ReadsAll(d, t.kids));
      var kid := KidOf(d, rs, t.kids, k, ps[1]);
      TailIsChain(d, ps);
      ChainIsRead(d, kid, ps[1..]);
      forall i | 0 < i < |ps|
        ensures d.Real(ps[i]) in ReadsAll(d, t.kids)
      {
        assert ps[i] == ps[1..][i - 1];
      }
      forall i, j | 0 < i < j < |ps|
        ensures d.Real(ps[i]) != d.Real(ps[j])
      {
        assert ps[i] == ps[1..][i - 1] && ps[j] == ps[1..][j - 1];
      }
    }
  }

  lemma TailIsChain(d: Disk, ps: seq<string>)
    requires Chain(d, ps) && |ps| > 1
    ensures Chain(d, ps[1..])
  {
    forall i | 0 <= i < |ps[1..]| - 1
      ensures Includes(d, ps[1..][i], ps[1..][i + 1])
    {
      assert Includes(d, ps[i + 1], ps[i + 2]);
    }
  }

  /** A reachable cycle of real paths never returns a result. */
  lemma CycleIsRejected(d: Disk, ps: seq<string>, i: nat, j: nat)
    requires Chain(d, ps) && i < j < |ps| && d.Real(ps[i]) == d.Real(ps[j])
    ensures Expand(d, ps[0], {}) == Fail
  {
    if Expand(d, ps[0], {}).Done? {
      var t := ExpandGivesTree(d, ps[0], {});
      ChainIsRead(d, t, ps);
    }
  }

  /** The subtrees of two records share no file. */
  lemma {:induction false} KidsAreApart(d: Disk, rs: seq<Record>, f: Forest, i: nat, j: nat, p: string, q: string)
    returns (a: Tree, b: Tree)
    requires UnfoldsAll(d, rs, f) && Distinct(ReadsAll(d, f))
    requires i < j && IncludesAt(d, rs, i, p) && IncludesAt(d, rs, j, q)
    ensures Unfolds(d, a) && Unfolds(d, b) && a.path == p && b.path == q
    ensures Distinct(Reads(d, a)) && Distinct(Reads(d, b))
    ensures forall x :: x in Reads(d, a) ==> x !in Reads(d, b)
    decreases f
  {
    if f.Branch? {
      ClearSplits(ReadsAll(d, f.front), Reads(d, f.kid), {});
    }
    if j == |rs| - 1 {
      a := KidOf(d, rs[..|rs| - 1], f.front, i, p);
      b := f.kid;
    } else {
      a, b := KidsAreApart(d, rs[..|rs| - 1], f.front, i, j, p, q);
    }
  }

  /** Two records of one file leading to the same file, cycle or not, never return a result. */
  lemma DiamondIsRejected(d: Disk, path: string, i: nat, j: nat, ps: seq<string>, qs: seq<string>)
    requires d.Readable(path) && i < j && Chain(d, ps) && Chain(d, qs)
    requires IncludesAt(d, d.Entries(path), i, ps[0]) && IncludesAt(d, d.Entries(path), j, qs[0])
    requires d.Real(ps[|ps| - 1]) == d.Real(qs[|qs| - 1])
    ensures Expand(d, path, {}) == Fail
  {
    if Expand(d, path, {}).Done? {
      var t := ExpandGivesTree(d, path, {});
      HeadIsApart(d.Real(t.path), ReadsAll(d, t.kids));
      var a, b := KidsAreApart(d, d.Entries(path), t.kids, i, j, ps[0], qs[0]);
      ChainIsRead(d, a, ps);
      ChainIsRead(d, b, qs);
    }
  }
}
