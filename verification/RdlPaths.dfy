/** Which registers of a tree are collected: exactly the ones some path leads to, with its name and address. */
module RdlPaths {
  import opened Common
  import opened RdlLayout

  /**
   The register a path of child positions leads to, the last one for the element of an array.  Names
   are joined with underscores on the way down and addresses are added up.
   */
  function Lookup(nodes: seq<Node>, path: seq<nat>, prefix: string, base: nat, cname: string -> string): Option<Reg>
    decreases path
  {
    if path == [] || path[0] >= |nodes| then None
    else match nodes[path[0]]
         case Container(name, offset, children) =>
           Lookup(children, path[1..], prefix + cname(name) + "_", base + offset, cname)
         case Register(name, offset) =>
           if |path| == 1 then Some(Reg(prefix + cname(name), base + offset)) else None
         case RegisterArray(name, offset, size, stride) =>
           if |path| == 2 && path[1] < size
           then Some(Reg(prefix + cname(name) + "_" + Decimal(path[1]), base + offset + path[1] * stride))
           else None
  }

  lemma {:induction false} ElementsIff(n: Node, prefix: string, base: nat, count: nat, cname: string -> string, r: Reg)
    requires n.RegisterArray?
    ensures r in Elements(n, prefix, base, count, cname) <==>
            exists k: nat :: k < count && r == Element(n, prefix, base, k, cname)
  {
    if count > 0 {
      ElementsIff(n, prefix, base, count - 1, cname, r);
    }
  }

  /** Looking up in the tail of the list. */
  lemma LookupTail(nodes: seq<Node>, path: seq<nat>, prefix: string, base: nat, cname: string -> string)
    requires nodes != [] && path != []
    ensures Lookup(nodes, [path[0] + 1] + path[1..], prefix, base, cname) ==
            Lookup(nodes[1..], path, prefix, base, cname)
  {
    assert ([path[0] + 1] + path[1..])[1..] == path[1..];
  }

  /** What a path leads to is collected. */
  lemma {:induction false} LookupIsCollected(nodes: seq<Node>, path: seq<nat>, prefix: string, base: nat,
                                             cname: string -> string)
    requires Lookup(nodes, path, prefix, base, cname).Some?
    ensures Lookup(nodes, path, prefix, base, cname).value in Collect(nodes, prefix, base, cname)
    decreases |path|, path[0]
  {
    var n, r := nodes[path[0]], Lookup(nodes, path, prefix, base, cname).value;
    if path[0] > 0 {
      var back := [path[0] - 1] + path[1..];
      assert [back[0] + 1] + back[1..] == path;
      LookupTail(nodes, back, prefix, base, cname);
      LookupIsCollected(nodes[1..], back, prefix, base, cname);
    } else {
      match n
      case Container(name, offset, children) =>
        LookupIsCollected(children, path[1..], prefix + cname(name) + "_", base + offset, cname);
      case Register(_, _) =>
      case RegisterArray(_, _, size, _) =>
        assert r == Element(n, prefix, base, path[1], cname);
        ElementsIff(n, prefix, base, size, cname, r);
    }
  }

  /** What is collected has a path. */
  lemma {:induction false} CollectedHasPath(nodes: seq<Node>, prefix: string, base: nat, cname: string -> string,
                                            r: Reg)
    returns (path: seq<nat>)
    requires r in Collect(nodes, prefix, base, cname)
    ensures Lookup(nodes, path, prefix, base, cname) == Some(r)
    decreases nodes
  {
    var n := nodes[0];
    if r in CollectNode(n, prefix, base, cname) {
      match n
      case Container(name, offset, children) =>
        var below := CollectedHasPath(children, prefix + cname(name) + "_", base + offset, cname, r);
        path := [0] + below;
        assert path[1..] == below;
      case Register(_, _) => path := [0];
      case RegisterArray(_, _, size, _) =>
        ElementsIff(n, prefix, base, size, cname, r);
        var k: nat :| k < size && r == Element(n, prefix, base, k, cname);
        path := [0, k];
    } else {
      var rest := CollectedHasPath(nodes[1..], prefix, base, cname, r);
      LookupTail(nodes, rest, prefix, base, cname);
      path := [rest[0] + 1] + rest[1..];
    }
  }

  ghost predicate HasPath(nodes: seq<Node>, prefix: string, base: nat, cname: string -> string, r: Reg) {
    exists path :: Lookup(nodes, path, prefix, base, cname) == Some(r)
  }

  /** Exactly the registers of the tree are collected, at any depth and every element of every array. */
  lemma CollectedIff(nodes: seq<Node>, prefix: string, base: nat, cname: string -> string, r: Reg)
    ensures r in Collect(nodes, prefix, base, cname) <==> HasPath(nodes, prefix, base, cname, r)
  {
    if r in Collect(nodes, prefix, base, cname) {
      var path := CollectedHasPath(nodes, prefix, base, cname, r);
    }
    if HasPath(nodes, prefix, base, cname, r) {
      var path :| Lookup(nodes, path, prefix, base, cname) == Some(r);
      LookupIsCollected(nodes, path, prefix, base, cname);
    }
  }
}
