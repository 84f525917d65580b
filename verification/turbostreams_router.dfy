/**
 * The radix-tree router that matches Turbo Streams topics against registered route patterns
 * (static segments, `:name` parameters and a `*` wildcard), one handler slot per method.
 *
 * The tree's nodes live in an arena: `nodes[0]` is the root, and parent and child links are
 * indices into `nodes`.
 */
module TurboStreamsRouter {
  import opened Wrappers
  import opened TurboStreamsContext

  datatype Kind = Static | Param | Any

  const ParamLabel: char := ':'
  const AnyLabel: char := '*'

  const MethodPub := "PUB"
  const MethodSub := "SUB"
  const MethodUnsub := "UNSUB"
  const MethodMsg := "MSG"

  predicate IsMethod(verb: string)
  {
    verb == MethodPub || verb == MethodSub || verb == MethodUnsub || verb == MethodMsg
  }

  /** The handlers of one node, one slot per method. */
  datatype MethodHandler = MethodHandler(pub: Option<Handler>, sub: Option<Handler>, unsub: Option<Handler>, msg: Option<Handler>)

  const NoHandlers := MethodHandler(None, None, None, None)

  predicate IsHandler(mh: MethodHandler)
  {
    mh.pub.Some? || mh.sub.Some? || mh.unsub.Some? || mh.msg.Some?
  }

  /** `findHandler`: the handler in the method's slot; none for a method that is not one of the four. */
  function FindHandler(mh: MethodHandler, verb: string): (h: Option<Handler>)
    ensures !IsMethod(verb) ==> h == None
    ensures h.Some? ==> IsHandler(mh)
  {
    if verb == MethodPub then mh.pub
    else if verb == MethodSub then mh.sub
    else if verb == MethodUnsub then mh.unsub
    else if verb == MethodMsg then mh.msg
    else None
  }

  datatype Node = Node(
    kind: Kind,
    lbl: char,
    prefix: string,
    parent: Option<nat>,
    staticChildren: seq<nat>,
    ppath: string,
    pnames: seq<string>,
    methodHandler: MethodHandler,
    paramChild: Option<nat>,
    anyChild: Option<nat>,
    isLeaf: bool,
    isHandler: bool)

  /** `isLeafNode`: no static, param or any children. */
  predicate IsLeafNode(n: Node)
  {
    n.staticChildren == [] && n.paramChild.None? && n.anyChild.None?
  }

  /**
   * `addHandler`: stores `h` in the method's slot (a method outside the four changes no slot);
   * a present handler marks the node as a handler, an absent one recomputes the mark.
   */
  function AddHandler(n: Node, verb: string, h: Option<Handler>): (r: Node)
    ensures FindHandler(r.methodHandler, verb) == (if IsMethod(verb) then h else None)
    ensures forall m :: m != verb ==> FindHandler(r.methodHandler, m) == FindHandler(n.methodHandler, m)
    ensures h.Some? ==> r.isHandler
    ensures h.None? ==> (r.isHandler <==> IsHandler(r.methodHandler))
    ensures r == n.(methodHandler := r.methodHandler, isHandler := r.isHandler)
  {
    var mh := n.methodHandler;
    var mh' :=
      if verb == MethodPub then mh.(pub := h)
      else if verb == MethodSub then mh.(sub := h)
      else if verb == MethodUnsub then mh.(unsub := h)
      else if verb == MethodMsg then mh.(msg := h)
      else mh;
    n.(methodHandler := mh', isHandler := if h.Some? then true else IsHandler(mh'))
  }

  /** `newNode`: the label is the prefix's first byte and the leaf and handler marks are derived. */
  function NewNode(
    t: Kind, pre: string, p: Option<nat>, sc: seq<nat>, mh: MethodHandler, ppath: string, pnames: seq<string>,
    paramChild: Option<nat>, anyChild: Option<nat>): (n: Node)
    requires |pre| > 0
    ensures n.lbl == pre[0] && n.prefix == pre
    ensures n.isLeaf <==> IsLeafNode(n)
    ensures n.isHandler <==> IsHandler(n.methodHandler)
  {
    Node(t, pre[0], pre, p, sc, ppath, pnames, mh, paramChild, anyChild,
      sc == [] && paramChild.None? && anyChild.None?, IsHandler(mh))
  }

  /**
   * `n` with `c` added as a static child, or as its param or any child, according to `slot`,
   * and its leaf mark brought up to date; nothing else of `n` changes.
   */
  function Attach(n: Node, slot: Kind, c: nat): (r: Node)
    ensures r.(staticChildren := n.staticChildren, paramChild := n.paramChild, anyChild := n.anyChild, isLeaf := n.isLeaf) == n
    ensures r.staticChildren == if slot == Static then n.staticChildren + [c] else n.staticChildren
    ensures r.paramChild == if slot == Param then Some(c) else n.paramChild
    ensures r.anyChild == if slot == Any then Some(c) else n.anyChild
    ensures forall d: nat :: ChildOf(r, d) ==> ChildOf(n, d) || d == c
    ensures forall d: nat :: ChildOf(n, d) ==> ChildOf(r, d) || (slot == Param && n.paramChild == Some(d)) || (slot == Any && n.anyChild == Some(d))
    ensures !r.isLeaf && r.isLeaf == IsLeafNode(r)
  {
    var p := match slot
      case Static => n.(staticChildren := n.staticChildren + [c])
      case Param => n.(paramChild := Some(c))
      case Any => n.(anyChild := Some(c));
    p.(isLeaf := IsLeafNode(p))
  }

  /** All the links of `n` point into an arena of `size` nodes. */
  predicate LinksIn(n: Node, size: nat)
  {
    (n.parent.Some? ==> n.parent.value < size) &&
    (forall k :: 0 <= k < |n.staticChildren| ==> n.staticChildren[k] < size) &&
    (n.paramChild.Some? ==> n.paramChild.value < size) &&
    (n.anyChild.Some? ==> n.anyChild.value < size)
  }

  /**
   * The well-formedness of the node at index `i` of an arena of `size` nodes: its links stay in
   * the arena, a handler in some slot marks it as a handler, and its leaf mark is right (the root
   * is exempt while its prefix is still empty, as `newRouter` leaves it).
   */
  predicate NodeOk(n: Node, i: nat, size: nat)
  {
    LinksIn(n, size) &&
    (IsHandler(n.methodHandler) ==> n.isHandler) &&
    (i > 0 || n.prefix != "" ==> (n.isLeaf <==> IsLeafNode(n)))
  }

  /** Every node of the arena, except perhaps the one at `x`, is well-formed. */
  predicate ValidExcept(nodes: seq<Node>, x: int)
  {
    |nodes| > 0 && forall i :: 0 <= i < |nodes| && i != x ==> NodeOk(nodes[i], i, |nodes|)
  }

  predicate ValidNodes(nodes: seq<Node>)
  {
    ValidExcept(nodes, -1)
  }

  lemma ReplaceOk(nodes: seq<Node>, x: nat, n: Node)
    requires ValidExcept(nodes, x) && x < |nodes| && NodeOk(n, x, |nodes|)
    ensures ValidNodes(nodes[x := n])
  {
  }

  lemma ReplaceAppendOk(nodes: seq<Node>, x: nat, n: Node, c: Node)
    requires ValidExcept(nodes, x) && x < |nodes| && NodeOk(n, x, |nodes| + 1) && NodeOk(c, |nodes|, |nodes| + 1)
    ensures ValidNodes(nodes[x := n] + [c])
  {
    var r := nodes[x := n] + [c];
    forall i | 0 <= i < |r|
      ensures NodeOk(r[i], i, |r|)
    {
      if i < |nodes| && i != x {
        assert NodeOk(nodes[i], i, |nodes|);
        assert r[i] == nodes[i];
      }
    }
  }

  /** `c` is one of the static children, the param child or the any child of `n`. */
  predicate ChildOf(n: Node, c: nat)
  {
    c in n.staticChildren || n.paramChild == Some(c) || n.anyChild == Some(c)
  }

  /** Relinking the static children, then the param child, then the any child relinks every child of `node`. */
  lemma ReparentedAll(before: seq<Node>, statics: seq<Node>, params: seq<Node>, after: seq<Node>, node: Node, p: nat)
    requires |statics| == |before| && |params| == |before| && |after| == |before|
    requires forall i :: 0 <= i < |before| ==>
      statics[i] == if i in node.staticChildren then before[i].(parent := Some(p)) else before[i]
    requires forall i :: 0 <= i < |before| ==>
      params[i] == if node.paramChild == Some(i) then statics[i].(parent := Some(p)) else statics[i]
    requires forall i :: 0 <= i < |before| ==>
      after[i] == if node.anyChild == Some(i) then params[i].(parent := Some(p)) else params[i]
    ensures forall i :: 0 <= i < |before| ==>
      after[i] == if ChildOf(node, i) then before[i].(parent := Some(p)) else before[i]
  {
    forall i | 0 <= i < |before|
      ensures after[i] == if ChildOf(node, i) then before[i].(parent := Some(p)) else before[i]
    {
      assert params[i] == if node.paramChild == Some(i) then statics[i].(parent := Some(p)) else statics[i];
      assert after[i] == if node.anyChild == Some(i) then params[i].(parent := Some(p)) else params[i];
    }
  }

  /** Every child of the node at `i` names it as its parent. */
  ghost predicate ChildrenLinked(nodes: seq<Node>, i: nat)
    requires i < |nodes|
  {
    forall c: nat :: ChildOf(nodes[i], c) ==> c < |nodes| && nodes[c].parent == Some(i)
  }

  /**
   * Parent links mirror child links: the root has no parent, and every child of a node names
   * that node as its parent (so no node is the child of two nodes).
   */
  ghost predicate Linked(nodes: seq<Node>)
  {
    |nodes| > 0 && nodes[0].parent.None? && forall i: nat :: i < |nodes| ==> ChildrenLinked(nodes, i)
  }

  /** Replacing a node by one with the same parent and children keeps the links mirrored. */
  lemma ReplaceLinked(nodes: seq<Node>, x: nat, n: Node)
    requires Linked(nodes) && x < |nodes| && n.parent == nodes[x].parent
    requires n.staticChildren == nodes[x].staticChildren && n.paramChild == nodes[x].paramChild && n.anyChild == nodes[x].anyChild
    ensures Linked(nodes[x := n])
  {
    var r := nodes[x := n];
    forall i: nat | i < |r|
      ensures ChildrenLinked(r, i)
    {
      assert ChildrenLinked(nodes, i);
      forall c: nat | ChildOf(r[i], c)
        ensures c < |r| && r[c].parent == Some(i)
      {
        assert ChildOf(nodes[i], c);
      }
    }
  }

  /** Appending a leaf whose parent is `x`, while `x` gains it as a child, keeps the links mirrored. */
  lemma AppendChildLinked(nodes: seq<Node>, x: nat, n: Node, child: Node)
    requires Linked(nodes) && x < |nodes| && n.parent == nodes[x].parent
    requires forall c: nat :: ChildOf(n, c) ==> ChildOf(nodes[x], c) || c == |nodes|
    requires child.parent == Some(x) && IsLeafNode(child)
    ensures Linked(nodes[x := n] + [child])
  {
    var r := nodes[x := n] + [child];
    forall i: nat | i < |r|
      ensures ChildrenLinked(r, i)
    {
      if i < |nodes| {
        assert ChildrenLinked(nodes, i);
      }
      forall c: nat | ChildOf(r[i], c)
        ensures c < |r| && r[c].parent == Some(i)
      {
        if i == x {
          if c != |nodes| {
            assert ChildOf(nodes[x], c);
          }
        } else if i < |nodes| {
          assert ChildOf(nodes[i], c);
        }
      }
    }
  }

  /**
   * The links after a split of `x`: `x` keeps its parent and has the new last node as its only
   * child, the new node takes over the children of `x`, and they name it as their parent.
   */
  lemma SplitLinked(nodes: seq<Node>, r: seq<Node>, x: nat)
    requires Linked(nodes) && x < |nodes| && nodes[x].parent != Some(x) && |r| == |nodes| + 1
    requires r[x].parent == nodes[x].parent && r[x].staticChildren == [|nodes|] && r[x].paramChild.None? && r[x].anyChild.None?
    requires r[|nodes|].parent == Some(x) && r[|nodes|].staticChildren == nodes[x].staticChildren
    requires r[|nodes|].paramChild == nodes[x].paramChild && r[|nodes|].anyChild == nodes[x].anyChild
    requires forall i :: 0 <= i < |nodes| && i != x ==>
      r[i] == nodes[i].(parent := if ChildOf(nodes[x], i) then Some(|nodes|) else nodes[i].parent)
    ensures Linked(r)
  {
    assert ChildrenLinked(nodes, x);
    assert x == 0 || !ChildOf(nodes[x], 0);
    forall i: nat | i < |r|
      ensures ChildrenLinked(r, i)
    {
      forall c: nat | ChildOf(r[i], c)
        ensures c < |r| && r[c].parent == Some(i)
      {
        if i == x {
          assert c == |nodes|;
        } else if i == |nodes| {
          assert ChildOf(nodes[x], c);
          assert c != x;
        } else {
          assert ChildrenLinked(nodes, i);
          assert ChildOf(nodes[i], c);
          assert c == x || !ChildOf(nodes[x], c);
        }
      }
    }
  }

  /** `chain` runs down from the root along parent links: each node's parent is the one before it. */
  ghost predicate Ancestry(nodes: seq<Node>, chain: seq<nat>)
  {
    |chain| > 0 && chain[0] == 0 &&
    (forall k :: 0 <= k < |chain| ==> chain[k] < |nodes|) &&
    (forall k :: 0 < k < |chain| ==> nodes[chain[k]].parent == Some(chain[k - 1]))
  }

  /** The prefixes of the nodes of `chain` joined in order: the route a chain from the root spells. */
  ghost function Route(nodes: seq<Node>, chain: seq<nat>): string
    requires forall k :: 0 <= k < |chain| ==> chain[k] < |nodes|
  {
    if chain == [] then "" else Route(nodes, chain[..|chain| - 1]) + nodes[chain[|chain| - 1]].prefix
  }

  /** With mirrored links a chain from the root never comes back to a node. */
  lemma {:induction false} AncestryDistinct(nodes: seq<Node>, chain: seq<nat>, j: nat, k: nat)
    requires Linked(nodes) && Ancestry(nodes, chain) && j < k < |chain|
    ensures chain[j] != chain[k]
    decreases j
  {
    assert nodes[chain[k]].parent == Some(chain[k - 1]);
    if j > 0 {
      assert nodes[chain[j]].parent == Some(chain[j - 1]);
      AncestryDistinct(nodes, chain, j - 1, k - 1);
    }
  }

  /** The route of a chain depends only on the prefixes of its nodes. */
  lemma {:induction false} RouteFrame(a: seq<Node>, b: seq<Node>, chain: seq<nat>)
    requires forall k :: 0 <= k < |chain| ==> chain[k] < |a| && chain[k] < |b| && b[chain[k]].prefix == a[chain[k]].prefix
    ensures Route(b, chain) == Route(a, chain)
    decreases |chain|
  {
    if chain != [] {
      RouteFrame(a, b, chain[..|chain| - 1]);
    }
  }

  /**
   * A change that keeps every prefix but that of the chain's last node `x`, keeps the parent of
   * `x` and re-parents only children of `x`, keeps the chain and the route of the nodes above `x`.
   */
  lemma ChainFrame(a: seq<Node>, b: seq<Node>, chain: seq<nat>, x: nat)
    requires Linked(a) && Ancestry(a, chain) && chain[|chain| - 1] == x && |a| <= |b| && b[x].parent == a[x].parent
    requires forall i :: 0 <= i < |a| && i != x ==> b[i].prefix == a[i].prefix && (b[i].parent == a[i].parent || ChildOf(a[x], i))
    ensures Ancestry(b, chain) && Route(b, chain[..|chain| - 1]) == Route(a, chain[..|chain| - 1])
  {
    var last := |chain| - 1;
    forall k | 0 <= k < last
      ensures chain[k] != x
    {
      AncestryDistinct(a, chain, k, last);
    }
    forall k | 0 < k < |chain|
      ensures b[chain[k]].parent == Some(chain[k - 1])
    {
      if k < last {
        assert !ChildOf(a[x], chain[k]) by {
          assert ChildrenLinked(a, x);
          AncestryDistinct(a, chain, k - 1, last);
        }
      }
    }
    RouteFrame(a, b, chain[..last]);
  }

  /** Going down to a child `c` of the chain's last node extends the chain and its route by the child's prefix. */
  lemma DescendRoute(nodes: seq<Node>, chain: seq<nat>, c: nat, search: string, path: string)
    requires Linked(nodes) && Ancestry(nodes, chain) && ChildOf(nodes[chain[|chain| - 1]], c)
    requires Route(nodes, chain[..|chain| - 1]) + search == path
    requires |nodes[chain[|chain| - 1]].prefix| <= |search|
    requires search[..|nodes[chain[|chain| - 1]].prefix|] == nodes[chain[|chain| - 1]].prefix
    ensures Ancestry(nodes, chain + [c])
    ensures Route(nodes, chain) + search[|nodes[chain[|chain| - 1]].prefix|..] == path
    ensures (chain + [c])[..|chain|] == chain
  {
    var cur := chain[|chain| - 1];
    assert ChildrenLinked(nodes, cur);
    assert search == nodes[cur].prefix + search[|nodes[cur].prefix|..];
  }

  /**
   * After the last node of `chain` is split after `lcpLen` bytes of its prefix, the links are
   * still mirrored, and the chain is still a chain whose route ends with the kept bytes.
   */
  lemma SplitChain(a: seq<Node>, b: seq<Node>, chain: seq<nat>, lcpLen: nat)
    requires Linked(a) && Ancestry(a, chain) && |b| == |a| + 1
    requires var x := chain[|chain| - 1];
      lcpLen <= |a[x].prefix| && a[x].parent != Some(x) &&
      b[x].parent == a[x].parent && b[x].prefix == a[x].prefix[..lcpLen] &&
      b[x].staticChildren == [|a|] && b[x].paramChild.None? && b[x].anyChild.None? &&
      b[|a|].parent == Some(x) && b[|a|].staticChildren == a[x].staticChildren &&
      b[|a|].paramChild == a[x].paramChild && b[|a|].anyChild == a[x].anyChild
    requires forall i :: 0 <= i < |a| && i != chain[|chain| - 1] ==>
      b[i] == a[i].(parent := if ChildOf(a[chain[|chain| - 1]], i) then Some(|a|) else a[i].parent)
    ensures Linked(b) && Ancestry(b, chain)
    ensures Route(b, chain) == Route(a, chain[..|chain| - 1]) + a[chain[|chain| - 1]].prefix[..lcpLen]
  {
    var x := chain[|chain| - 1];
    SplitLinked(a, b, x);
    ChainFrame(a, b, chain, x);
  }

  /**
   * Appending a child of the chain's last node, which keeps its prefix and parent, extends the
   * chain by the child and its route by the child's prefix.
   */
  lemma AppendChain(a: seq<Node>, chain: seq<nat>, n: Node, child: Node)
    requires Linked(a) && Ancestry(a, chain)
    requires n.parent == a[chain[|chain| - 1]].parent && n.prefix == a[chain[|chain| - 1]].prefix
    requires child.parent == Some(chain[|chain| - 1])
    ensures Ancestry(a[chain[|chain| - 1] := n] + [child], chain + [|a|])
    ensures Route(a[chain[|chain| - 1] := n] + [child], chain + [|a|]) == Route(a, chain) + child.prefix
  {
    var x := chain[|chain| - 1];
    var b := a[x := n] + [child];
    ChainFrame(a, b, chain, x);
    var ext := chain + [|a|];
    assert ext[..|chain|] == chain;
    assert Route(b, chain) == Route(b, chain[..|chain| - 1]) + b[x].prefix;
    assert Route(a, chain) == Route(a, chain[..|chain| - 1]) + a[x].prefix;
  }

  /** The last node of a chain from the root is not its own parent. */
  lemma NotOwnParent(nodes: seq<Node>, chain: seq<nat>)
    requires Linked(nodes) && Ancestry(nodes, chain)
    ensures nodes[chain[|chain| - 1]].parent != Some(chain[|chain| - 1])
  {
    if |chain| > 1 {
      AncestryDistinct(nodes, chain, |chain| - 2, |chain| - 1);
    }
  }

  /** `findStaticChild`: the first static child whose label is `l`. */
  function StaticChildWithLabel(nodes: seq<Node>, children: seq<nat>, l: char): (r: Option<nat>)
    requires forall k :: 0 <= k < |children| ==> children[k] < |nodes|
    ensures FirstLabelled(nodes, children, l, r)
  {
    if children == [] then None
    else if nodes[children[0]].lbl == l then
      assert children[0] in children;
      Some(children[0])
    else
      var r := StaticChildWithLabel(nodes, children[1..], l);
      LabelledAfterFirst(nodes, children, l, r);
      r
  }

  /**
   * `r` is the first of `children` whose label is `l`: it is one of them and has the label, and
   * none before it has; or it is none, and no child has the label.
   */
  predicate FirstLabelled(nodes: seq<Node>, children: seq<nat>, l: char, r: Option<nat>)
    requires forall k :: 0 <= k < |children| ==> children[k] < |nodes|
  {
    && (r.Some? ==> r.value in children && nodes[r.value].lbl == l)
    && (r.None? <==> forall c :: c in children ==> nodes[c].lbl != l)
    && (r.Some? ==>
      exists k :: 0 <= k < |children| && children[k] == r.value && forall j :: 0 <= j < k ==> nodes[children[j]].lbl != l)
  }

  /** When the first child lacks the label, the first of the others with it is the first of all with it. */
  lemma LabelledAfterFirst(nodes: seq<Node>, children: seq<nat>, l: char, r: Option<nat>)
    requires |children| > 0 && forall k :: 0 <= k < |children| ==> children[k] < |nodes|
    requires nodes[children[0]].lbl != l && FirstLabelled(nodes, children[1..], l, r)
    ensures FirstLabelled(nodes, children, l, r)
  {
    assert forall c :: c in children ==> c == children[0] || c in children[1..];
    if r.Some? {
      var k :| 0 <= k < |children[1..]| && children[1..][k] == r.value &&
        forall j :: 0 <= j < k ==> nodes[children[1..][j]].lbl != l;
      assert children[k + 1] == r.value;
      forall j | 1 <= j < k + 1
        ensures nodes[children[j]].lbl != l
      {
        assert children[j] == children[1..][j - 1];
      }
    }
  }

  /** `findChildWithLabel`: a static child first, then the param child for ':' and the any child for '*'. */
  function ChildWithLabel(nodes: seq<Node>, n: Node, l: char): (r: Option<nat>)
    requires LinksIn(n, |nodes|)
    ensures r.Some? ==> r.value < |nodes|
    ensures StaticChildWithLabel(nodes, n.staticChildren, l).Some? ==> r == StaticChildWithLabel(nodes, n.staticChildren, l)
    ensures StaticChildWithLabel(nodes, n.staticChildren, l).None? ==>
      r == (if l == ParamLabel then n.paramChild else if l == AnyLabel then n.anyChild else None)
  {
    var s := StaticChildWithLabel(nodes, n.staticChildren, l);
    if s.Some? then s
    else if l == ParamLabel then n.paramChild
    else if l == AnyLabel then n.anyChild
    else None
  }

  /** The length of the longest common prefix of `a` and `b`. */
  method CommonPrefixLength(a: string, b: string) returns (n: nat)
    ensures n <= |a| && n <= |b| && a[..n] == b[..n]
    ensures n < |a| && n < |b| ==> a[n] != b[n]
  {
    n := 0;
    while n < |a| && n < |b| && a[n] == b[n]
      invariant n <= |a| && n <= |b| && a[..n] == b[..n]
    {
      n := n + 1;
    }
  }

  /** `Add`'s path validation: an empty path becomes "/", and a missing leading "/" is added. */
  function NormalizePath(path: string): (r: string)
    ensures |r| > 0 && r[0] == '/'
    ensures path == "" ==> r == "/"
    ensures path != "" && path[0] == '/' ==> r == path
    ensures path != "" && path[0] != '/' ==> r == "/" + path
  {
    if path == "" then "/" else if path[0] != '/' then "/" + path else path
  }

  /** The length of a parameter name: up to the next '/' or the end. */
  function NameLength(s: string): (n: nat)
    ensures n <= |s| && (forall k :: 0 <= k < n ==> s[k] != '/') && (n < |s| ==> s[n] == '/')
  {
    if s == [] || s[0] == '/' then 0 else 1 + NameLength(s[1..])
  }

  /**
   * The route pattern scan of `Add`, over the part already scanned (`done`) and the rest:
   * `\:` becomes a literal ':' (the backslash is dropped); an unescaped ':' keeps the ':' and
   * records the name that follows it, which is cut from the path; '*' records "*".
   * It yields the final path inserted for the route and its parameter names, in order.
   */
  function Scan(done: string, rest: string, names: seq<string>): (r: (string, seq<string>))
    decreases |rest|
  {
    if rest == [] then (done, names)
    else if rest[0] == ':' && |done| > 0 && done[|done| - 1] == '\\' then
      Scan(done[..|done| - 1] + [':'], rest[1..], names)
    else if rest[0] == ':' then
      var n := NameLength(rest[1..]);
      Scan(done + [':'], rest[1 + n..], names + [rest[1..1 + n]])
    else if rest[0] == '*' then Scan(done + ['*'], rest[1..], names + ["*"])
    else Scan(done + [rest[0]], rest[1..], names)
  }

  /** The parameter names of a route path, in order of appearance, with "*" for the wildcard. */
  function RouteParamNames(path: string): seq<string>
  {
    Scan("", NormalizePath(path), []).1
  }

  /** The path `Add` inserts for a route: the normalized path with escapes dropped and parameter names cut. */
  function RoutePattern(path: string): string
  {
    Scan("", NormalizePath(path), []).0
  }

  /** A route path with no ':' and no '*' is inserted as its normalized self, with no parameter names. */
  lemma PlainPattern(path: string)
    requires forall k :: 0 <= k < |path| ==> path[k] != ':' && path[k] != '*'
    ensures RoutePattern(path) == NormalizePath(path) && RouteParamNames(path) == []
  {
    var p := NormalizePath(path);
    assert forall k :: 0 <= k < |p| ==> p[k] != ':' && p[k] != '*' by {
      if path != [] && path[0] != '/' {
        assert forall k :: 1 <= k < |p| ==> p[k] == path[k - 1];
      }
    }
    ScanPlain("", p, []);
    assert "" + p == p;
  }

  /** A path with no ':' or '*' has no parameters and is inserted unchanged. */
  lemma {:induction false} ScanPlain(done: string, rest: string, names: seq<string>)
    requires forall k :: 0 <= k < |rest| ==> rest[k] != ':' && rest[k] != '*'
    ensures Scan(done, rest, names) == (done + rest, names)
    decreases |rest|
  {
    if rest == [] {
      assert done + rest == done;
    } else {
      assert rest[0] != ':' && rest[0] != '*';
      assert Scan(done, rest, names) == Scan(done + [rest[0]], rest[1..], names);
      ScanPlain(done + [rest[0]], rest[1..], names);
      assert done + [rest[0]] + rest[1..] == done + rest;
    }
  }

  /** One step of the scan over a character that is not an unescaped ':' ('*' records "*"). */
  lemma ScanStep(p: string, i: nat, names: seq<string>)
    requires i < |p| && p[i] != ':'
    ensures Scan(p[..i], p[i..], names) == Scan(p[..i + 1], p[i + 1..], if p[i] == '*' then names + ["*"] else names)
  {
    assert p[..i + 1] == p[..i] + [p[i]] && p[i..][1..] == p[i + 1..];
  }

  /** The escape step: dropping the backslash before ':' and moving past the ':' is one scan step. */
  lemma ScanEscapeStep(p: string, i: nat, names: seq<string>)
    requires 0 < i < |p| && p[i] == ':' && p[i - 1] == '\\'
    ensures var q := p[..i - 1] + p[i..]; Scan(p[..i], p[i..], names) == Scan(q[..i], q[i..], names)
  {
    var q := p[..i - 1] + p[i..];
    assert p[..i][|p[..i]| - 1] == '\\' && p[i..][0] == ':';
    assert Scan(p[..i], p[i..], names) == Scan(p[..i][..i - 1] + [':'], p[i..][1..], names);
    assert q[..i] == p[..i][..i - 1] + [':'] && q[i..] == p[i..][1..];
  }

  /**
   * The parameter step: the name after an unescaped ':' is recorded and cut from the path,
   * and the scan goes on just past the ':', where a '/' or the end follows.
   */
  lemma ScanParamStep(p: string, i: nat, names: seq<string>)
    requires i < |p| && p[i] == ':' && !(i > 0 && p[i - 1] == '\\')
    ensures var j, n := i + 1, NameLength(p[i + 1..]); var q := p[..j] + p[j + n..];
      j + n <= |p| && Scan(p[..i], p[i..], names) == Scan(q[..j], q[j..], names + [p[j..j + n]]) && (j < |q| ==> q[j] == '/')
  {
    var j, n := i + 1, NameLength(p[i + 1..]);
    var q := p[..j] + p[j + n..];
    assert Scan(p[..i], p[i..], names) == Scan(p[..j], p[j + n..], names + [p[j..j + n]]) by {
      var rest := p[i..];
      assert rest[0] == ':' && rest[1..] == p[j..];
      assert rest[1..1 + n] == p[j..j + n] && rest[1 + n..] == p[j + n..];
      assert Scan(p[..i], rest, names) == Scan(p[..i] + [':'], rest[1 + n..], names + [rest[1..1 + n]]);
      assert p[..i] + [':'] == p[..j];
    }
    assert j + n <= |p| && q[..j] == p[..j] && q[j..] == p[j + n..] by {
      CutSlices(p, j, n);
    }
    assert j < |q| ==> q[j] == '/' by {
      CutSlices(p, j, n);
      assert j + n < |p| ==> q[j] == p[j..][n];
    }
  }

  /** Cutting `p[j..j + n]` out of `p` leaves `p[..j]` in front and `p[j + n..]` behind. */
  lemma CutSlices(p: string, j: nat, n: nat)
    requires j + n <= |p|
    ensures var q := p[..j] + p[j + n..]; |q| == |p| - n && q[..j] == p[..j] && q[j..] == p[j + n..]
  {
    var q := p[..j] + p[j + n..];
    assert q[..j] == p[..j];
    assert q[j..] == p[j + n..];
  }

  /** Names are only ever appended: the names already recorded stay in front. */
  lemma {:induction false} ScanKeepsNames(done: string, rest: string, names: seq<string>)
    ensures |Scan(done, rest, names).1| >= |names| && Scan(done, rest, names).1[..|names|] == names
    decreases |rest|
  {
    if rest == [] {
    } else if rest[0] == ':' && |done| > 0 && done[|done| - 1] == '\\' {
      ScanKeepsNames(done[..|done| - 1] + [':'], rest[1..], names);
    } else if rest[0] == ':' {
      var n := NameLength(rest[1..]);
      ScanKeepsNames(done + [':'], rest[1 + n..], names + [rest[1..1 + n]]);
      assert (names + [rest[1..1 + n]])[..|names|] == names;
    } else if rest[0] == '*' {
      ScanKeepsNames(done + ['*'], rest[1..], names + ["*"]);
      assert (names + ["*"])[..|names|] == names;
    } else {
      ScanKeepsNames(done + [rest[0]], rest[1..], names);
    }
  }

  /** The block of `Find`'s loop being run: the whole iteration, or a jump to the param or any block. */
  datatype Block = TopBlock | ParamBlock | AnyBlock

  /** Where `Find` goes from a node once its prefix matched and no handler ended the search. */
  datatype Descent = ToStatic(child: nat) | ToParam(child: nat) | ToAny(child: nat) | Retreat

  /**
   * The child `Find` descends into, by priority static > param > any: a static child is
   * tried only from the start of an iteration, a param child only with search left and not
   * after a jump to the any block.
   */
  function Descend(nodes: seq<Node>, n: Node, search: string, from: Block): (d: Descent)
    requires LinksIn(n, |nodes|)
    ensures d.ToStatic? ==> from == TopBlock && search != [] && d.child in n.staticChildren && nodes[d.child].lbl == search[0]
    ensures from == TopBlock && search != [] && (exists c :: c in n.staticChildren && nodes[c].lbl == search[0]) ==> d.ToStatic?
    ensures d.ToParam? ==> search != [] && from != AnyBlock && n.paramChild == Some(d.child)
    ensures d.ToParam? && from == TopBlock ==> forall c :: c in n.staticChildren ==> nodes[c].lbl != search[0]
    ensures d.ToAny? ==> n.anyChild == Some(d.child)
    ensures d.ToAny? && from == TopBlock && search != [] ==> forall c :: c in n.staticChildren ==> nodes[c].lbl != search[0]
    ensures d.ToAny? && from != AnyBlock && search != [] ==> n.paramChild.None?
    ensures d.Retreat? ==> n.anyChild.None? && (from != AnyBlock && search != [] ==> n.paramChild.None?)
    ensures !d.Retreat? ==> d.child < |nodes|
  {
    var s := if from == TopBlock && search != [] then StaticChildWithLabel(nodes, n.staticChildren, search[0]) else None;
    if s.Some? then ToStatic(s.value)
    else if from != AnyBlock && search != [] && n.paramChild.Some? then ToParam(n.paramChild.value)
    else if n.anyChild.Some? then ToAny(n.anyChild.value)
    else Retreat
  }

  /** The next kind to try after backtracking from a node of kind `k`: static > param > any, then static. */
  function NextKind(k: Kind): Kind
  {
    match k
    case Static => Param
    case Param => Any
    case Any => Static
  }

  /** The length of the parameter value at the head of `search`: up to the next '/' or the end. */
  method ParamValueLength(search: string) returns (i: nat)
    ensures i == NameLength(search)
  {
    i := 0;
    while i < |search| && search[i] != '/'
      invariant i <= |search| && NameLength(search) == i + NameLength(search[i..])
    {
      assert search[i..][1..] == search[i + 1..];
      i := i + 1;
    }
  }

  /** A write into the parameter value buffer, which fails (Go panics) when the index is out of range. */
  method Store(buf: array<string>, idx: int, v: string) returns (ok: bool)
    modifies buf
    ensures ok <==> 0 <= idx < buf.Length
    ensures ok ==> buf[..] == old(buf[..])[idx := v]
    ensures !ok ==> buf[..] == old(buf[..])
  {
    ok := 0 <= idx < buf.Length;
    if ok {
      buf[idx] := v;
    }
  }

  /**
   * The restoring half of `backtrackToNextNodeKind`: leaving a static node gives its prefix back
   * to the search; leaving a param or any node gives back the value recorded for it, which is
   * cleared (out of range, Go panics).
   */
  method Restore(prev: Node, buf: array<string>, searchIndex: int, paramIndex: int) returns (ok: bool, si: int, pi: int)
    modifies buf
    ensures prev.kind == Static ==> ok && si == searchIndex - |prev.prefix| && pi == paramIndex && buf[..] == old(buf[..])
    ensures prev.kind != Static ==> pi == paramIndex - 1 && (ok <==> 0 <= pi < buf.Length)
    ensures prev.kind != Static && ok ==> si == searchIndex - |old(buf[pi])| && buf[..] == old(buf[..])[pi := ""]
    ensures !ok ==> buf[..] == old(buf[..])
  {
    if prev.kind == Static {
      return true, searchIndex - |prev.prefix|, paramIndex;
    }
    pi := paramIndex - 1;
    si := searchIndex;
    ok := 0 <= pi < buf.Length;
    if ok {
      si := searchIndex - |buf[pi]|;
      buf[pi] := "";
    }
  }

  /**
   * The local state of `Find`'s loop: the current node (or none, after backtracking past the
   * root), the first node the whole path reached, the handler found, the rest of the search and
   * its position, the next parameter slot, the block to run and whether the loop has ended.
   */
  datatype Walk = Walk(
    cur: nat, curNil: bool, best: Option<nat>, matched: Option<Handler>,
    search: string, searchIndex: int, paramIndex: int, block: Block, done: bool)

  /**
   * What `Find` keeps: the nodes it holds are in the arena, a handler is found only at the
   * current node and ends the loop, and the first node the path reached has no handler for the
   * method unless the search ended there.
   */
  predicate WalkOk(nodes: seq<Node>, verb: string, st: Walk)
  {
    st.cur < |nodes| && (st.best.Some? ==> st.best.value < |nodes|) &&
    (st.matched.Some? ==> st.done && !st.curNil && FindHandler(nodes[st.cur].methodHandler, verb) == st.matched) &&
    (st.matched.None? && st.best.Some? ==> FindHandler(nodes[st.best.value].methodHandler, verb).None?) &&
    (!st.done ==> !st.curNil)
  }

  /** How `Find` ended. */
  datatype FindOutcome =
    | NoRoute          // nothing matched: the handler is left as it was
    | Matched          // a node with a handler for the method matched the whole path
    | MethodNotFound   // the path matched but no handler exists for the method
    | Panicked         // the source would panic (an index out of range or a nil node)
    | OutOfFuel        // the step bound ran out

  /**
   * The start of an iteration of `Find`'s loop: a static node must match its whole prefix,
   * which the search then loses; otherwise the walk goes back to the parent's param block, and
   * at the root nothing matched. With no search left at a node with handlers, the node is the
   * first match unless one was recorded, and a handler for the method ends the loop.
   */
  function AfterMatch(nodes: seq<Node>, verb: string, st: Walk): (r: (Walk, Option<FindOutcome>))
    requires ValidNodes(nodes) && WalkOk(nodes, verb, st) && !st.done && st.block == TopBlock
    ensures r.1.Some? ==> r.1 == Some(NoRoute) && nodes[st.cur].parent.None?
    ensures r.1.None? ==> WalkOk(nodes, verb, r.0)
    ensures r.1.None? && r.0.block != TopBlock ==> nodes[st.cur].parent == Some(r.0.cur) && r.0.block == ParamBlock
    ensures r.1.None? && r.0.block == TopBlock ==>
      r.0.cur == st.cur && |r.0.search| <= |st.search| && st.search[|st.search| - |r.0.search|..] == r.0.search
  {
    var n := nodes[st.cur];
    assert NodeOk(n, st.cur, |nodes|);
    if !PrefixMatches(n, st.search) then
      if n.parent.None? then (st, Some(NoRoute)) else (st.(cur := n.parent.value, block := ParamBlock), None)
    else
      var k := if n.kind == Static then |n.prefix| else 0;
      (Arrive(nodes, verb, st.(search := st.search[k..], searchIndex := st.searchIndex + k)), None)
  }

  /**
   * The walk has consumed the current node's prefix: with no search left at a node with
   * handlers, the node is the first match unless one was recorded, and a handler for the method
   * ends the loop.
   */
  function Arrive(nodes: seq<Node>, verb: string, s: Walk): (r: Walk)
    requires s.cur < |nodes| && !s.done && s.matched.None?
    ensures At(r) == At(s) && r.block == s.block && r.curNil == s.curNil
    ensures r.best == if s.best.None? && s.search == [] && nodes[s.cur].isHandler then Some(s.cur) else s.best
    ensures r.matched.Some? || r.done ==>
      r.done && r.matched.Some? && s.search == [] && r.matched == FindHandler(nodes[s.cur].methodHandler, verb)
    ensures r.matched.None? ==> !r.done && (s.search == [] && nodes[s.cur].isHandler ==> FindHandler(nodes[s.cur].methodHandler, verb).None?)
  {
    if s.search == [] && nodes[s.cur].isHandler then
      var s' := if s.best.None? then s.(best := Some(s.cur)) else s;
      var h := FindHandler(nodes[s.cur].methodHandler, verb);
      if h.Some? then s'.(matched := h, done := true) else s'
    else s
  }

  /**
   * The param block entering the param child `c`: it takes the search up to the next '/' (all
   * of it, for a leaf) as its value, written at `paramIndex` of the buffer `vals` (out of
   * range, Go panics), and the walk goes on from the child's start with the rest of the search.
   */
  function AfterParam(nodes: seq<Node>, st: Walk, vals: seq<string>, c: nat): (r: (Walk, Option<FindOutcome>, seq<string>))
    requires c < |nodes|
    ensures r.1.None? <==> 0 <= st.paramIndex < |vals|
    ensures r.1.Some? ==> r.1 == Some(Panicked) && r.2 == vals
    ensures r.1.None? ==>
      |r.2| == |vals| && r.2 == vals[st.paramIndex := r.2[st.paramIndex]] &&
      r.0.cur == c && r.0.block == TopBlock && r.0.paramIndex == st.paramIndex + 1 &&
      st.search == r.2[st.paramIndex] + r.0.search && r.0.searchIndex == st.searchIndex + |r.2[st.paramIndex]| &&
      (nodes[c].isLeaf ==> r.0.search == []) && (!nodes[c].isLeaf ==> '/' !in r.2[st.paramIndex])
  {
    var i := if nodes[c].isLeaf then |st.search| else NameLength(st.search);
    if 0 <= st.paramIndex < |vals| then
      var s := st.(cur := c, paramIndex := st.paramIndex + 1, search := st.search[i..],
        searchIndex := st.searchIndex + i, block := TopBlock);
      assert st.search == st.search[..i] + st.search[i..];
      (s, None, vals[st.paramIndex := st.search[..i]])
    else (st, Some(Panicked), vals)
  }

  /**
   * The any block entering the any child `c`: it takes the whole search as its value, written at
   * the slot of its last parameter name (out of range, Go panics). It becomes the first match
   * unless one was recorded, and a handler for the method there ends the loop.
   */
  function AfterAny(nodes: seq<Node>, verb: string, st: Walk, vals: seq<string>, c: nat): (r: (Walk, Option<FindOutcome>, seq<string>))
    requires WalkOk(nodes, verb, st) && !st.done && c < |nodes|
    ensures r.1.None? <==> 0 <= |nodes[c].pnames| - 1 < |vals|
    ensures r.1.Some? ==> r.1 == Some(Panicked) && r.2 == vals
    ensures r.1.None? ==>
      WalkOk(nodes, verb, r.0) && r.0.cur == c && r.0.search == [] && r.0.searchIndex == st.searchIndex + |st.search| &&
      r.2 == vals[|nodes[c].pnames| - 1 := st.search] && r.0.best == (if st.best.None? then Some(c) else st.best) &&
      (r.0.done <==> FindHandler(nodes[c].methodHandler, verb).Some?)
  {
    var idx := |nodes[c].pnames| - 1;
    if 0 <= idx < |vals| then
      var s := st.(cur := c, paramIndex := st.paramIndex + 1, searchIndex := st.searchIndex + |st.search|, search := []);
      var s' := if s.best.None? then s.(best := Some(c)) else s;
      var h := FindHandler(nodes[c].methodHandler, verb);
      (if h.Some? then s'.(matched := h, done := true) else s', None, vals[idx := st.search])
    else (st, Some(Panicked), vals)
  }

  /**
   * `backtrackToNextNodeKind` from the any block: gives back what the current node consumed
   * (its prefix, or its recorded value, which is cleared) and moves to its parent, going on with
   * the param block after a static node and the any block after a param node; after an any
   * node, or with no parent, the loop ends. A value slot or a search position out of range
   * panics in Go.
   */
  function AfterBacktrack(nodes: seq<Node>, path: string, st: Walk, vals: seq<string>): (r: (Walk, Option<FindOutcome>, seq<string>))
    requires ValidNodes(nodes) && st.cur < |nodes| && !st.done && !st.curNil
    ensures r.1.Some? ==> r.1 == Some(Panicked)
    ensures r.1.None? ==>
      r.0.cur < |nodes| && r.0.best == st.best && r.0.matched == st.matched && |r.2| == |vals| &&
      0 <= r.0.searchIndex <= |path| && r.0.search == path[r.0.searchIndex..] &&
      (!r.0.done ==> !r.0.curNil && nodes[st.cur].parent == Some(r.0.cur) && r.0.block != TopBlock) &&
      (r.0.done <==> nodes[st.cur].parent.None? || nodes[st.cur].kind == Any)
  {
    var prev := nodes[st.cur];
    assert NodeOk(prev, st.cur, |nodes|);
    var pi := if prev.kind == Static then st.paramIndex else st.paramIndex - 1;
    if prev.kind != Static && !(0 <= pi < |vals|) then (st, Some(Panicked), vals)
    else
      var si := if prev.kind == Static then st.searchIndex - |prev.prefix| else st.searchIndex - |vals[pi]|;
      var vals' := if prev.kind == Static then vals else vals[pi := ""];
      if !(0 <= si <= |path|) then (st, Some(Panicked), vals')
      else
        var s := st.(searchIndex := si, paramIndex := pi, search := path[si..]);
        if prev.parent.None? then (s.(curNil := true, done := true), None, vals')
        else
          var s' := s.(cur := prev.parent.value);
          match NextKind(prev.kind)
          case Param => (s'.(block := ParamBlock), None, vals')
          case Any => (s'.(block := AnyBlock), None, vals')
          case Static => (s'.(done := true), None, vals')
  }

  /**
   * The static, param and any blocks of `Find`'s loop, then the backtracking when none applies:
   * a static child is entered without consuming anything, the param and any children as
   * `AfterParam` and `AfterAny` say.
   */
  function AfterDescent(nodes: seq<Node>, verb: string, path: string, st: Walk, vals: seq<string>): (r: (Walk, Option<FindOutcome>, seq<string>))
    requires ValidNodes(nodes) && WalkOk(nodes, verb, st) && !st.done
    ensures r.1.Some? ==> r.1 == Some(Panicked)
    ensures r.1.None? ==> WalkOk(nodes, verb, r.0) && |r.2| == |vals|
  {
    var n := nodes[st.cur];
    assert NodeOk(n, st.cur, |nodes|);
    match Descend(nodes, n, st.search, st.block)
    case ToStatic(c) => (st.(cur := c, block := TopBlock), None, vals)
    case ToParam(c) => AfterParam(nodes, st, vals, c)
    case ToAny(c) =>
      var a := AfterAny(nodes, verb, st, vals, c);
      if a.1.Some? || a.0.done then a else AfterBacktrack(nodes, path, a.0, a.2)
    case Retreat => AfterBacktrack(nodes, path, st, vals)
  }

  /** One iteration of `Find`'s loop from the block `st.block`, on the parameter buffer `vals`. */
  function AfterStep(nodes: seq<Node>, verb: string, path: string, st: Walk, vals: seq<string>): (r: (Walk, Option<FindOutcome>, seq<string>))
    requires ValidNodes(nodes) && WalkOk(nodes, verb, st) && !st.done
    ensures r.1.Some? ==> r.1 == Some(NoRoute) || r.1 == Some(Panicked)
    ensures r.1 == Some(NoRoute) ==> st.block == TopBlock && nodes[st.cur].parent.None?
    ensures r.1.None? ==> WalkOk(nodes, verb, r.0) && |r.2| == |vals|
  {
    if st.block == TopBlock then
      var t := AfterMatch(nodes, verb, st);
      if t.1.Some? || t.0.done || t.0.block != TopBlock then (t.0, t.1, vals)
      else AfterDescent(nodes, verb, path, t.0, vals)
    else AfterDescent(nodes, verb, path, st, vals)
  }


  /**
   * The kinds the tree's slots promise: the root and every static child are static nodes, a
   * param child is a param node and an any child an any node. `Add` keeps this for ordinary
   * routes, but not always (an escaped ':' can leave a param node in a static slot).
   */
  predicate KindsOk(nodes: seq<Node>)
  {
    |nodes| > 0 && nodes[0].kind == Static && forall i :: 0 <= i < |nodes| ==> ChildKinds(nodes, nodes[i])
  }

  predicate ChildKinds(nodes: seq<Node>, n: Node)
  {
    (forall c :: c in n.staticChildren && c < |nodes| ==> nodes[c].kind == Static) &&
    (n.paramChild.Some? && n.paramChild.value < |nodes| ==> nodes[n.paramChild.value].kind == Param) &&
    (n.anyChild.Some? && n.anyChild.value < |nodes| ==> nodes[n.anyChild.value].kind == Any)
  }

  /**
   * The part of a path `Find` lets a node consume: a static node its own prefix, a param node
   * a piece without '/' (anything, when it is a leaf), an any node anything.
   */
  predicate SegmentOk(n: Node, s: string)
  {
    match n.kind
    case Static => s == n.prefix
    case Param => n.isLeaf || forall k :: 0 <= k < |s| ==> s[k] != '/'
    case Any => true
  }

  /** The strings of `ss` joined in order. */
  function Concat(ss: seq<string>): string
  {
    if ss == [] then "" else Concat(ss[..|ss| - 1]) + ss[|ss| - 1]
  }

  /**
   * A walk down the tree: the chain of nodes from the root and the part of the path each of
   * them consumed; the last node of the chain may not have consumed its part yet.
   */
  datatype Trail = Trail(chain: seq<nat>, segs: seq<string>)

  /** The parts of the path consumed by the param and any nodes of the trail, in order: the parameter values. */
  function Values(nodes: seq<Node>, chain: seq<nat>, segs: seq<string>): seq<string>
    requires |segs| <= |chain| && forall k :: 0 <= k < |segs| ==> chain[k] < |nodes|
  {
    if segs == [] then []
    else
      var n := |segs| - 1;
      Values(nodes, chain, segs[..n]) + if nodes[chain[n]].kind == Static then [] else [segs[n]]
  }

  /** The trail runs down from the root, each node consumed its allowed part, and together they consumed `s`. */
  ghost predicate Consumed(nodes: seq<Node>, tr: Trail, s: string)
  {
    Ancestry(nodes, tr.chain) && |tr.segs| <= |tr.chain| <= |tr.segs| + 1 && Concat(tr.segs) == s &&
    forall k :: 0 <= k < |tr.segs| ==> SegmentOk(nodes[tr.chain[k]], tr.segs[k])
  }

  /** The trail spells `path`: every node of the chain consumed its part, and the parts make up the path. */
  ghost predicate Spells(nodes: seq<Node>, tr: Trail, path: string)
  {
    Consumed(nodes, tr, path) && |tr.segs| == |tr.chain|
  }

  /** The prefixes of the nodes of `chain`, in order. */
  ghost function Prefixes(nodes: seq<Node>, chain: seq<nat>): (r: seq<string>)
    requires forall k :: 0 <= k < |chain| ==> chain[k] < |nodes|
    ensures |r| == |chain| && forall k :: 0 <= k < |chain| ==> r[k] == nodes[chain[k]].prefix
  {
    seq(|chain|, k requires 0 <= k < |chain| => nodes[chain[k]].prefix)
  }

  /** Joining the prefixes of a chain gives its route. */
  lemma {:induction false} ConcatPrefixes(nodes: seq<Node>, chain: seq<nat>)
    requires forall k :: 0 <= k < |chain| ==> chain[k] < |nodes|
    ensures Concat(Prefixes(nodes, chain)) == Route(nodes, chain)
    decreases |chain|
  {
    if chain != [] {
      var n := |chain| - 1;
      ConcatPrefixes(nodes, chain[..n]);
      assert Prefixes(nodes, chain)[..n] == Prefixes(nodes, chain[..n]);
    }
  }

  /**
   * A chain of static nodes from the root spells `path` exactly when its route is `path`: each
   * static node consumes its own prefix, and no parameter value is recorded on the way. So a
   * node `Find` reaches through static nodes is one whose route, as `Insert` builds it, is the
   * path searched for.
   */
  lemma StaticSpells(nodes: seq<Node>, tr: Trail, path: string)
    requires Ancestry(nodes, tr.chain) && forall k :: 0 <= k < |tr.chain| ==> nodes[tr.chain[k]].kind == Static
    ensures Spells(nodes, tr, path) <==> tr.segs == Prefixes(nodes, tr.chain) && Route(nodes, tr.chain) == path
    ensures Spells(nodes, tr, path) ==> Values(nodes, tr.chain, tr.segs) == []
  {
    ConcatPrefixes(nodes, tr.chain);
    if Spells(nodes, tr, path) {
      forall k | 0 <= k < |tr.segs|
        ensures tr.segs[k] == Prefixes(nodes, tr.chain)[k]
      {
        assert SegmentOk(nodes[tr.chain[k]], tr.segs[k]);
      }
      NoValues(nodes, tr.chain, tr.segs);
    }
  }

  /** Static nodes record no parameter values. */
  lemma {:induction false} NoValues(nodes: seq<Node>, chain: seq<nat>, segs: seq<string>)
    requires |segs| <= |chain| && forall k :: 0 <= k < |chain| ==> chain[k] < |nodes| && nodes[chain[k]].kind == Static
    ensures Values(nodes, chain, segs) == []
    decreases |segs|
  {
    if segs != [] {
      NoValues(nodes, chain, segs[..|segs| - 1]);
    }
  }

  /** The values of a trail depend only on the nodes that consumed something. */
  lemma {:induction false} ValuesFrame(nodes: seq<Node>, a: seq<nat>, b: seq<nat>, segs: seq<string>)
    requires |segs| <= |a| && |segs| <= |b| && forall k :: 0 <= k < |segs| ==> a[k] == b[k] && a[k] < |nodes|
    ensures Values(nodes, a, segs) == Values(nodes, b, segs)
    decreases |segs|
  {
    if segs != [] {
      ValuesFrame(nodes, a, b, segs[..|segs| - 1]);
    }
  }

  /** The pending last node consumes `v`: the consumed path and, for a param or any node, the values grow by it. */
  lemma ConsumeOwn(nodes: seq<Node>, tr: Trail, s: string, v: string)
    requires Consumed(nodes, tr, s) && |tr.segs| < |tr.chain| && SegmentOk(nodes[tr.chain[|tr.chain| - 1]], v)
    ensures Consumed(nodes, Trail(tr.chain, tr.segs + [v]), s + v)
    ensures Values(nodes, tr.chain, tr.segs + [v]) ==
      Values(nodes, tr.chain, tr.segs) + if nodes[tr.chain[|tr.chain| - 1]].kind == Static then [] else [v]
  {
    var segs := tr.segs + [v];
    assert segs[..|segs| - 1] == tr.segs;
  }

  /** Going down to a child of the last node, which has consumed its part, leaves the child pending. */
  lemma Enter(nodes: seq<Node>, tr: Trail, s: string, c: nat)
    requires Linked(nodes) && Consumed(nodes, tr, s) && |tr.segs| == |tr.chain| && ChildOf(nodes[tr.chain[|tr.chain| - 1]], c)
    ensures Consumed(nodes, Trail(tr.chain + [c], tr.segs), s)
    ensures Values(nodes, tr.chain + [c], tr.segs) == Values(nodes, tr.chain, tr.segs)
  {
    var x := tr.chain[|tr.chain| - 1];
    assert ChildrenLinked(nodes, x);
    var ext := tr.chain + [c];
    forall k | 0 < k < |ext|
      ensures nodes[ext[k]].parent == Some(ext[k - 1])
    {
      if k < |tr.chain| {
        assert ext[k] == tr.chain[k] && ext[k - 1] == tr.chain[k - 1];
      }
    }
    ValuesFrame(nodes, ext, tr.chain, tr.segs);
  }

  /** Leaving the pending last node for its parent keeps everything consumed. */
  lemma Leave(nodes: seq<Node>, tr: Trail, s: string)
    requires Consumed(nodes, tr, s) && |tr.segs| < |tr.chain| && |tr.chain| > 1
    ensures Consumed(nodes, Trail(tr.chain[..|tr.chain| - 1], tr.segs), s)
    ensures Values(nodes, tr.chain[..|tr.chain| - 1], tr.segs) == Values(nodes, tr.chain, tr.segs)
  {
    ValuesFrame(nodes, tr.chain[..|tr.chain| - 1], tr.chain, tr.segs);
  }

  /**
   * Leaving the last node, which has consumed its part, for its parent gives the part back: the
   * consumed path loses it at the end, and so do the values when the node is a param or any node.
   */
  lemma GiveBack(nodes: seq<Node>, tr: Trail, s: string)
    requires Consumed(nodes, tr, s) && |tr.segs| == |tr.chain| > 1
    ensures var n := |tr.segs| - 1;
      |tr.segs[n]| <= |s| && s == s[..|s| - |tr.segs[n]|] + tr.segs[n] &&
      Consumed(nodes, Trail(tr.chain[..n], tr.segs[..n]), s[..|s| - |tr.segs[n]|]) &&
      Values(nodes, tr.chain, tr.segs) ==
        Values(nodes, tr.chain[..n], tr.segs[..n]) + if nodes[tr.chain[n]].kind == Static then [] else [tr.segs[n]]
  {
    var n := |tr.segs| - 1;
    assert s == Concat(tr.segs[..n]) + tr.segs[n];
    ValuesFrame(nodes, tr.chain[..n], tr.chain, tr.segs[..n]);
  }

  /** Where a walk is: its current node and its place in the path and in the parameter buffer. */
  datatype Position = Position(cur: nat, search: string, searchIndex: int, paramIndex: int)

  function At(st: Walk): Position
  {
    Position(st.cur, st.search, st.searchIndex, st.paramIndex)
  }

  /** The walk is at the end of the trail, and the trail consumed the path up to the search's position. */
  ghost predicate Located(nodes: seq<Node>, path: string, p: Position, tr: Trail)
  {
    0 <= p.searchIndex <= |path| && p.search == path[p.searchIndex..] &&
    Consumed(nodes, tr, path[..p.searchIndex]) && tr.chain[|tr.chain| - 1] == p.cur
  }

  /** Besides, the parameter buffer `vals` holds the trail's values in its first `paramIndex` slots. */
  ghost predicate Recorded(nodes: seq<Node>, path: string, vals: seq<string>, p: Position, tr: Trail)
  {
    Located(nodes, path, p, tr) &&
    p.paramIndex == |Values(nodes, tr.chain, tr.segs)| <= |vals| && vals[..p.paramIndex] == Values(nodes, tr.chain, tr.segs)
  }

  /**
   * At the head of `Find`'s loop, running `block`: the current node is still to consume its
   * prefix exactly when it is a static node about to be matched.
   */
  ghost predicate Walking(nodes: seq<Node>, path: string, vals: seq<string>, p: Position, block: Block, tr: Trail)
  {
    Recorded(nodes, path, vals, p, tr) &&
    (|tr.segs| < |tr.chain| <==> block == TopBlock && nodes[p.cur].kind == Static)
  }

  /** The first node that matched the whole path is the end of a trail `btr` spelling the path. */
  ghost predicate BestSpelled(nodes: seq<Node>, path: string, best: Option<nat>, btr: Trail)
  {
    best.Some? ==> Spells(nodes, btr, path) && btr.chain[|btr.chain| - 1] == best.value
  }

  /**
   * What `Find`'s loop keeps about the path: while it runs, the walk follows the trail `tr`; a
   * handler is found at the end of a trail spelling the path; so is the first node that matched.
   */
  ghost predicate Tracked(nodes: seq<Node>, path: string, vals: seq<string>, st: Walk, tr: Trail, btr: Trail)
  {
    (!st.done ==> Walking(nodes, path, vals, At(st), st.block, tr)) &&
    (st.matched.Some? ==>
      Spells(nodes, tr, path) && tr.chain[|tr.chain| - 1] == st.cur &&
      (nodes[st.cur].kind != Any ==> Recorded(nodes, path, vals, At(st), tr))) &&
    BestSpelled(nodes, path, st.best, btr)
  }

  /** After the match at the start of an iteration: the current node consumed its part, and the walk is to descend. */
  ghost predicate Ready(nodes: seq<Node>, path: string, vals: seq<string>, st: Walk, tr: Trail, btr: Trail)
  {
    Recorded(nodes, path, vals, At(st), tr) && |tr.segs| == |tr.chain| && BestSpelled(nodes, path, st.best, btr)
  }

  /** With no search left, a trail whose nodes all consumed their parts spells the path. */
  lemma SpellsAtEnd(nodes: seq<Node>, path: string, p: Position, tr: Trail)
    requires Located(nodes, path, p, tr) && |tr.segs| == |tr.chain| && p.search == []
    ensures Spells(nodes, tr, path)
  {
    assert path[..p.searchIndex] == path;
  }

  /** A static mismatch below the root: the walk goes back to the parent's param block, dropping the pending node. */
  lemma LeavePending(nodes: seq<Node>, path: string, vals: seq<string>, p: Position, tr: Trail)
    requires Linked(nodes) && Walking(nodes, path, vals, p, TopBlock, tr)
    requires nodes[p.cur].kind == Static && nodes[p.cur].parent.Some?
    ensures |tr.chain| > 1 && nodes[p.cur].parent == Some(tr.chain[|tr.chain| - 2])
    ensures Walking(nodes, path, vals, p.(cur := nodes[p.cur].parent.value), ParamBlock, Trail(tr.chain[..|tr.chain| - 1], tr.segs))
  {
    assert tr.chain[0] == 0;
    Leave(nodes, tr, path[..p.searchIndex]);
  }

  /** A static node matched its whole prefix: it consumes it, and the search moves past it. */
  lemma MatchPrefix(nodes: seq<Node>, path: string, vals: seq<string>, p: Position, tr: Trail)
    requires Walking(nodes, path, vals, p, TopBlock, tr) && nodes[p.cur].kind == Static
    requires |nodes[p.cur].prefix| <= |p.search| && p.search[..|nodes[p.cur].prefix|] == nodes[p.cur].prefix
    ensures var k := |nodes[p.cur].prefix|;
      Recorded(nodes, path, vals, p.(search := p.search[k..], searchIndex := p.searchIndex + k),
        Trail(tr.chain, tr.segs + [nodes[p.cur].prefix]))
    ensures |tr.segs| + 1 == |tr.chain|
  {
    var v := nodes[p.cur].prefix;
    ConsumeOwn(nodes, tr, path[..p.searchIndex], v);
    assert path[..p.searchIndex] + v == path[..p.searchIndex + |v|];
  }

  /** Entering a static child leaves it to match its prefix at the start of the next iteration. */
  lemma EnterStatic(nodes: seq<Node>, path: string, vals: seq<string>, p: Position, tr: Trail, c: nat)
    requires Linked(nodes) && KindsOk(nodes) && Recorded(nodes, path, vals, p, tr) && |tr.segs| == |tr.chain|
    requires c in nodes[p.cur].staticChildren
    ensures Walking(nodes, path, vals, p.(cur := c), TopBlock, Trail(tr.chain + [c], tr.segs))
  {
    assert ChildOf(nodes[p.cur], c) && ChildrenLinked(nodes, p.cur);
    assert ChildKinds(nodes, nodes[p.cur]);
    Enter(nodes, tr, path[..p.searchIndex], c);
  }

  /** Entering the param child with the value `search[..i]`: it consumes the value, recorded at `paramIndex`. */
  lemma EnterParam(nodes: seq<Node>, path: string, vals: seq<string>, p: Position, tr: Trail, c: nat, i: nat)
    requires Linked(nodes) && KindsOk(nodes) && Recorded(nodes, path, vals, p, tr) && |tr.segs| == |tr.chain|
    requires nodes[p.cur].paramChild == Some(c) && c < |nodes| && i <= |p.search| && 0 <= p.paramIndex < |vals|
    requires nodes[c].isLeaf || forall k :: 0 <= k < i ==> p.search[k] != '/'
    ensures Walking(nodes, path, vals[p.paramIndex := p.search[..i]],
      Position(c, p.search[i..], p.searchIndex + i, p.paramIndex + 1), TopBlock,
      Trail(tr.chain + [c], tr.segs + [p.search[..i]]))
  {
    assert ChildOf(nodes[p.cur], c) && ChildrenLinked(nodes, p.cur);
    assert ChildKinds(nodes, nodes[p.cur]);
    var s := path[..p.searchIndex];
    var v := p.search[..i];
    Enter(nodes, tr, s, c);
    ConsumeOwn(nodes, Trail(tr.chain + [c], tr.segs), s, v);
    assert s + v == path[..p.searchIndex + i];
    var vals' := vals[p.paramIndex := v];
    assert vals'[..p.paramIndex + 1] == vals[..p.paramIndex] + [v];
  }

  /** Entering the any child: it consumes the whole search, so its trail spells the path. */
  lemma EnterAny(nodes: seq<Node>, path: string, p: Position, tr: Trail, c: nat, pi: int)
    requires Linked(nodes) && KindsOk(nodes) && Located(nodes, path, p, tr) && |tr.segs| == |tr.chain|
    requires nodes[p.cur].anyChild == Some(c) && c < |nodes|
    ensures nodes[c].kind == Any
    ensures var tr' := Trail(tr.chain + [c], tr.segs + [p.search]);
      Located(nodes, path, Position(c, [], p.searchIndex + |p.search|, pi), tr') && Spells(nodes, tr', path)
  {
    assert ChildOf(nodes[p.cur], c) && ChildrenLinked(nodes, p.cur);
    assert ChildKinds(nodes, nodes[p.cur]);
    var s := path[..p.searchIndex];
    Enter(nodes, tr, s, c);
    ConsumeOwn(nodes, Trail(tr.chain + [c], tr.segs), s, p.search);
    assert s + p.search == path && path[..|path|] == path;
  }

  /**
   * Backtracking from a static node below the root that consumed its prefix gives the prefix
   * back; the walk is then at the parent, which ends the shorter trail.
   */
  lemma GiveBackStatic(nodes: seq<Node>, path: string, vals: seq<string>, p: Position, tr: Trail)
    requires Linked(nodes) && Recorded(nodes, path, vals, p, tr) && |tr.segs| == |tr.chain|
    requires nodes[p.cur].parent.Some? && nodes[p.cur].kind == Static
    ensures |tr.chain| > 1 && nodes[p.cur].parent == Some(tr.chain[|tr.chain| - 2])
    ensures var n, prev := |tr.segs| - 1, nodes[p.cur];
      var si := p.searchIndex - |prev.prefix|;
      0 <= si <= |path| &&
      Recorded(nodes, path, vals, Position(prev.parent.value, path[si..], si, p.paramIndex), Trail(tr.chain[..n], tr.segs[..n]))
  {
    assert tr.chain[0] == 0;
    var n := |tr.segs| - 1;
    GiveBack(nodes, tr, path[..p.searchIndex]);
    var si := p.searchIndex - |tr.segs[n]|;
    assert path[..p.searchIndex][..si] == path[..si];
  }

  /**
   * Backtracking from a param or any node below the root gives back the value recorded last,
   * which is its part of the path, and clears it; the walk is then at the parent, which ends the
   * shorter trail.
   */
  lemma GiveBackValue(nodes: seq<Node>, path: string, vals: seq<string>, p: Position, tr: Trail)
    requires Linked(nodes) && Recorded(nodes, path, vals, p, tr) && |tr.segs| == |tr.chain|
    requires nodes[p.cur].parent.Some? && nodes[p.cur].kind != Static
    ensures |tr.chain| > 1 && nodes[p.cur].parent == Some(tr.chain[|tr.chain| - 2])
    ensures var n, pi := |tr.segs| - 1, p.paramIndex - 1;
      0 <= pi < |vals| && 0 <= p.searchIndex - |vals[pi]| <= |path| &&
      var si := p.searchIndex - |vals[pi]|;
      Recorded(nodes, path, vals[pi := ""], Position(nodes[p.cur].parent.value, path[si..], si, pi),
        Trail(tr.chain[..n], tr.segs[..n]))
  {
    assert tr.chain[0] == 0;
    var n := |tr.segs| - 1;
    GiveBack(nodes, tr, path[..p.searchIndex]);
    var si := p.searchIndex - |tr.segs[n]|;
    assert path[..p.searchIndex][..si] == path[..si];
    var vs := Values(nodes, tr.chain, tr.segs);
    var pi := p.paramIndex - 1;
    assert vals[pi] == vs[pi] == tr.segs[n];
    assert vals[pi := ""][..pi] == vals[..pi] == vs[..pi];
  }

  /** The static node at the start of an iteration matches its whole prefix (any other node matches trivially). */
  predicate PrefixMatches(n: Node, search: string)
  {
    n.kind != Static || (|n.prefix| <= |search| && search[..|n.prefix|] == n.prefix)
  }

  /**
   * The match at the start of an iteration keeps the walk on a trail: a static mismatch drops
   * the pending node, a match lets it consume its prefix, and a match of the whole path spells it.
   */
  lemma MatchTracked(nodes: seq<Node>, verb: string, path: string, vals: seq<string>, st: Walk, tr: Trail, btr: Trail)
    returns (tr': Trail, btr': Trail)
    requires ValidNodes(nodes) && Linked(nodes) && WalkOk(nodes, verb, st) && !st.done && st.block == TopBlock
    requires Walking(nodes, path, vals, At(st), TopBlock, tr) && BestSpelled(nodes, path, st.best, btr)
    ensures var r := AfterMatch(nodes, verb, st);
      r.1.None? ==>
        if !r.0.done && r.0.block == TopBlock then Ready(nodes, path, vals, r.0, tr', btr')
        else Tracked(nodes, path, vals, r.0, tr', btr')
  {
    var n := nodes[st.cur];
    tr', btr' := tr, btr;
    if !PrefixMatches(n, st.search) {
      if n.parent.Some? {
        LeavePending(nodes, path, vals, At(st), tr);
        tr' := Trail(tr.chain[..|tr.chain| - 1], tr.segs);
      }
    } else {
      tr', btr' := PrefixTracked(nodes, verb, path, vals, st, tr, btr);
    }
  }

  /** The current node matched: it consumes its prefix, and with no search left its trail spells the path. */
  lemma PrefixTracked(nodes: seq<Node>, verb: string, path: string, vals: seq<string>, st: Walk, tr: Trail, btr: Trail)
    returns (tr': Trail, btr': Trail)
    requires ValidNodes(nodes) && WalkOk(nodes, verb, st) && !st.done && st.block == TopBlock
    requires Walking(nodes, path, vals, At(st), TopBlock, tr) && BestSpelled(nodes, path, st.best, btr)
    requires PrefixMatches(nodes[st.cur], st.search)
    ensures var r := AfterMatch(nodes, verb, st);
      r.1.None? && r.0.cur == st.cur && Recorded(nodes, path, vals, At(r.0), tr') && |tr'.segs| == |tr'.chain| &&
      BestSpelled(nodes, path, r.0.best, btr') && (r.0.done ==> Spells(nodes, tr', path))
  {
    var n := nodes[st.cur];
    var k := if n.kind == Static then |n.prefix| else 0;
    tr' := ConsumeTracked(nodes, path, vals, At(st), tr, k);
    var s := st.(search := st.search[k..], searchIndex := st.searchIndex + k);
    btr' := btr;
    if s.search == [] && n.isHandler {
      SpellsAtEnd(nodes, path, At(s), tr');
      if s.best.None? {
        btr' := tr';
      }
    }
  }

  /** A matched node consumes its prefix when it is static, and nothing otherwise. */
  lemma ConsumeTracked(nodes: seq<Node>, path: string, vals: seq<string>, p: Position, tr: Trail, k: nat) returns (tr': Trail)
    requires Walking(nodes, path, vals, p, TopBlock, tr) && PrefixMatches(nodes[p.cur], p.search)
    requires k == if nodes[p.cur].kind == Static then |nodes[p.cur].prefix| else 0
    ensures k <= |p.search| && |tr'.segs| == |tr'.chain|
    ensures Recorded(nodes, path, vals, p.(search := p.search[k..], searchIndex := p.searchIndex + k), tr')
  {
    tr' := tr;
    if nodes[p.cur].kind == Static {
      MatchPrefix(nodes, path, vals, p, tr);
      tr' := Trail(tr.chain, tr.segs + [nodes[p.cur].prefix]);
    } else {
      assert p.search[k..] == p.search;
    }
  }

  /** Entering the param child keeps the walk on a trail, the value recorded in the buffer. */
  lemma ParamTracked(nodes: seq<Node>, path: string, vals: seq<string>, st: Walk, tr: Trail, c: nat) returns (tr': Trail)
    requires Linked(nodes) && KindsOk(nodes) && Recorded(nodes, path, vals, At(st), tr) && |tr.segs| == |tr.chain|
    requires nodes[st.cur].paramChild == Some(c) && c < |nodes|
    ensures var r := AfterParam(nodes, st, vals, c);
      r.1.None? ==> Walking(nodes, path, r.2, At(r.0), TopBlock, tr')
  {
    tr' := tr;
    var i := if nodes[c].isLeaf then |st.search| else NameLength(st.search);
    if 0 <= st.paramIndex < |vals| {
      EnterParam(nodes, path, vals, At(st), tr, c, i);
      tr' := Trail(tr.chain + [c], tr.segs + [st.search[..i]]);
    }
  }

  /** Entering the any child consumes the rest of the path: its trail spells the path. */
  lemma AnyTracked(nodes: seq<Node>, verb: string, path: string, vals: seq<string>, st: Walk, tr: Trail, btr: Trail, c: nat)
    returns (tr': Trail, btr': Trail)
    requires Linked(nodes) && KindsOk(nodes) && WalkOk(nodes, verb, st) && !st.done
    requires Located(nodes, path, At(st), tr) && |tr.segs| == |tr.chain| && BestSpelled(nodes, path, st.best, btr)
    requires nodes[st.cur].anyChild == Some(c) && c < |nodes|
    ensures var r := AfterAny(nodes, verb, st, vals, c);
      r.1.None? ==>
        nodes[c].kind == Any && Located(nodes, path, At(r.0), tr') && |tr'.segs| == |tr'.chain| &&
        BestSpelled(nodes, path, r.0.best, btr') && Spells(nodes, tr', path) && tr'.chain[|tr'.chain| - 1] == r.0.cur
  {
    tr', btr' := tr, btr;
    EnterAny(nodes, path, At(st), tr, c, st.paramIndex + 1);
    if 0 <= |nodes[c].pnames| - 1 < |vals| {
      tr' := Trail(tr.chain + [c], tr.segs + [st.search]);
      if st.best.None? {
        btr' := tr';
      }
    }
  }

  /**
   * Backtracking keeps the walk on a trail: leaving a static, param or any node gives back its
   * part of the path and, for a param node, its recorded value.
   */
  lemma BacktrackTracked(nodes: seq<Node>, path: string, vals: seq<string>, st: Walk, tr: Trail, btr: Trail)
    returns (tr': Trail)
    requires ValidNodes(nodes) && Linked(nodes) && st.cur < |nodes| && !st.done && !st.curNil && st.matched.None?
    requires Located(nodes, path, At(st), tr) && |tr.segs| == |tr.chain| && BestSpelled(nodes, path, st.best, btr)
    requires nodes[st.cur].kind != Any ==> Recorded(nodes, path, vals, At(st), tr)
    ensures var r := AfterBacktrack(nodes, path, st, vals);
      r.1.None? ==> Tracked(nodes, path, r.2, r.0, tr', btr)
  {
    var prev := nodes[st.cur];
    var r := AfterBacktrack(nodes, path, st, vals);
    tr' := tr;
    if r.1.None? && prev.parent.Some? && prev.kind != Any {
      var n := |tr.segs| - 1;
      tr' := Trail(tr.chain[..n], tr.segs[..n]);
      BacktrackPosition(nodes, path, st, vals);
      BacktrackRecorded(nodes, path, vals, st, tr);
      ParentWalking(nodes, path, r.2, At(r.0), r.0.block, tr');
    }
  }

  /** Backtracking from a static, param or any node below the root leaves the walk at the end of the shorter trail. */
  lemma BacktrackRecorded(nodes: seq<Node>, path: string, vals: seq<string>, st: Walk, tr: Trail)
    requires ValidNodes(nodes) && Linked(nodes) && st.cur < |nodes| && !st.done && !st.curNil
    requires Recorded(nodes, path, vals, At(st), tr) && |tr.segs| == |tr.chain|
    requires nodes[st.cur].parent.Some? && nodes[st.cur].kind != Any
    ensures var r, n := AfterBacktrack(nodes, path, st, vals), |tr.segs| - 1;
      n >= 0 && (r.1.None? ==> Recorded(nodes, path, r.2, At(r.0), Trail(tr.chain[..n], tr.segs[..n])))
  {
    BacktrackPosition(nodes, path, st, vals);
    if nodes[st.cur].kind == Static {
      GiveBackStatic(nodes, path, vals, At(st), tr);
    } else {
      GiveBackValue(nodes, path, vals, At(st), tr);
    }
  }

  /** Where backtracking from a static, param or any node below the root leaves the walk, when it does not panic. */
  lemma BacktrackPosition(nodes: seq<Node>, path: string, st: Walk, vals: seq<string>)
    requires ValidNodes(nodes) && st.cur < |nodes| && !st.done && !st.curNil
    ensures var r, prev := AfterBacktrack(nodes, path, st, vals), nodes[st.cur];
      r.1.None? && prev.parent.Some? && prev.kind != Any ==>
        !r.0.done && r.0.matched == st.matched && r.0.best == st.best && r.0.block != TopBlock &&
        if prev.kind == Static then
          var si := st.searchIndex - |prev.prefix|;
          0 <= si <= |path| && r.2 == vals && At(r.0) == Position(prev.parent.value, path[si..], si, st.paramIndex)
        else
          var pi := st.paramIndex - 1;
          0 <= pi < |vals| && 0 <= st.searchIndex - |vals[pi]| <= |path| &&
          var si := st.searchIndex - |vals[pi]|;
          r.2 == vals[pi := ""] && At(r.0) == Position(prev.parent.value, path[si..], si, pi)
  {
  }

  /** A trail whose nodes all consumed their parts is walked by any block but the top one. */
  lemma ParentWalking(nodes: seq<Node>, path: string, vals: seq<string>, p: Position, block: Block, tr: Trail)
    requires Recorded(nodes, path, vals, p, tr) && |tr.segs| == |tr.chain| && block != TopBlock
    ensures Walking(nodes, path, vals, p, block, tr)
  {
  }

  /** The any block, and the backtracking after it when the any child has no handler for the method, keep the walk on a trail. */
  lemma AnyThenBackTracked(nodes: seq<Node>, verb: string, path: string, vals: seq<string>, st: Walk, tr: Trail, btr: Trail, c: nat)
    returns (tr': Trail, btr': Trail)
    requires ValidNodes(nodes) && Linked(nodes) && KindsOk(nodes) && WalkOk(nodes, verb, st) && !st.done
    requires Located(nodes, path, At(st), tr) && |tr.segs| == |tr.chain| && BestSpelled(nodes, path, st.best, btr)
    requires nodes[st.cur].anyChild == Some(c) && c < |nodes|
    ensures var a := AfterAny(nodes, verb, st, vals, c);
      var r := if a.1.Some? || a.0.done then a else AfterBacktrack(nodes, path, a.0, a.2);
      r.1.None? ==> Tracked(nodes, path, r.2, r.0, tr', btr')
  {
    tr', btr' := AnyTracked(nodes, verb, path, vals, st, tr, btr, c);
    var a := AfterAny(nodes, verb, st, vals, c);
    if a.1.None? && !a.0.done {
      tr' := BacktrackTracked(nodes, path, a.2, a.0, tr', btr');
    }
  }

  /** The static, param and any blocks and the backtracking keep the walk on a trail. */
  lemma DescentTracked(nodes: seq<Node>, verb: string, path: string, vals: seq<string>, st: Walk, tr: Trail, btr: Trail)
    returns (tr': Trail, btr': Trail)
    requires ValidNodes(nodes) && Linked(nodes) && KindsOk(nodes) && WalkOk(nodes, verb, st) && !st.done
    requires Ready(nodes, path, vals, st, tr, btr)
    ensures var r := AfterDescent(nodes, verb, path, st, vals);
      r.1.None? ==> Tracked(nodes, path, r.2, r.0, tr', btr')
  {
    var n := nodes[st.cur];
    assert NodeOk(n, st.cur, |nodes|);
    tr', btr' := tr, btr;
    match Descend(nodes, n, st.search, st.block)
    case ToStatic(c) =>
      EnterStatic(nodes, path, vals, At(st), tr, c);
      tr' := Trail(tr.chain + [c], tr.segs);
    case ToParam(c) =>
      tr' := ParamTracked(nodes, path, vals, st, tr, c);
    case ToAny(c) =>
      tr', btr' := AnyThenBackTracked(nodes, verb, path, vals, st, tr, btr, c);
    case Retreat =>
      tr' := BacktrackTracked(nodes, path, vals, st, tr, btr);
  }

  /**
   * One iteration of `Find`'s loop keeps the walk on a trail that consumed the path up to the
   * search, with the parameter values in the buffer; a handler found, or the first node the whole
   * path reached, ends a trail spelling the path.
   */
  lemma StepTracked(nodes: seq<Node>, verb: string, path: string, vals: seq<string>, st: Walk, tr: Trail, btr: Trail)
    returns (tr': Trail, btr': Trail)
    requires ValidNodes(nodes) && Linked(nodes) && KindsOk(nodes) && WalkOk(nodes, verb, st) && !st.done
    requires Tracked(nodes, path, vals, st, tr, btr)
    ensures var r := AfterStep(nodes, verb, path, st, vals);
      r.1.None? ==> Tracked(nodes, path, r.2, r.0, tr', btr')
  {
    if st.block == TopBlock {
      tr', btr' := MatchTracked(nodes, verb, path, vals, st, tr, btr);
      var t := AfterMatch(nodes, verb, st);
      if t.1.None? && !t.0.done && t.0.block == TopBlock {
        tr', btr' := DescentTracked(nodes, verb, path, vals, t.0, tr', btr');
      }
    } else {
      tr', btr' := DescentTracked(nodes, verb, path, vals, st, tr, btr);
    }
  }

  /** `s` is not empty and starts with `b`. */
  predicate StartsWith(s: string, b: char)
  {
    |s| > 0 && s[0] == b
  }

  /**
   * Each child's prefix starts with the byte `findChildWithLabel` finds it by: its label for a
   * static child, ':' for the param child and '*' for the any child.
   */
  ghost predicate LabelsOk(nodes: seq<Node>)
  {
    forall i :: 0 <= i < |nodes| ==> ChildLabelsOk(nodes, nodes[i])
  }

  ghost predicate ChildLabelsOk(nodes: seq<Node>, n: Node)
  {
    (forall c :: c in n.staticChildren && c < |nodes| ==> StartsWith(nodes[c].prefix, nodes[c].lbl)) &&
    (n.paramChild.Some? && n.paramChild.value < |nodes| ==> StartsWith(nodes[n.paramChild.value].prefix, ParamLabel)) &&
    (n.anyChild.Some? && n.anyChild.value < |nodes| ==> StartsWith(nodes[n.anyChild.value].prefix, AnyLabel))
  }

  /** With the labels right, the child found for the byte `l` has a prefix that starts with `l`. */
  lemma LabelledChild(nodes: seq<Node>, i: nat, l: char)
    requires LabelsOk(nodes) && i < |nodes| && LinksIn(nodes[i], |nodes|)
    ensures var c := ChildWithLabel(nodes, nodes[i], l); c.Some? ==> StartsWith(nodes[c.value].prefix, l)
  {
    assert ChildLabelsOk(nodes, nodes[i]);
  }

  /** The root's prefix starts with the path's first byte, so `insert` does not take over the root. */
  predicate RootShared(nodes: seq<Node>, path: string)
  {
    |nodes| > 0 && |path| > 0 && StartsWith(nodes[0].prefix, path[0])
  }

  /** `chain` runs down from the root along child links as well as parent links, so a search can walk it. */
  ghost predicate Reaches(nodes: seq<Node>, chain: seq<nat>)
  {
    Ancestry(nodes, chain) && forall k :: 0 < k < |chain| ==> ChildOf(nodes[chain[k - 1]], chain[k])
  }

  /** What a route leads to: the node's kind, its handlers, its route path and its parameter names. */
  function Payload(n: Node): (Kind, MethodHandler, string, seq<string>)
  {
    (n.kind, n.methodHandler, n.ppath, n.pnames)
  }

  /** The walkable chain `chain` of `a` has a walkable counterpart in `b` with the same route and payload. */
  ghost predicate Survives(a: seq<Node>, b: seq<Node>, chain: seq<nat>)
    requires Ancestry(a, chain)
  {
    exists chain' :: Reaches(b, chain') && Route(b, chain') == Route(a, chain) &&
      Payload(b[chain'[|chain'| - 1]]) == Payload(a[chain[|chain| - 1]])
  }

  /** Every walkable route of `a` other than `path` is still a walkable route of `b`, leading to the same payload. */
  ghost predicate KeepsRoutes(a: seq<Node>, b: seq<Node>, path: string)
  {
    forall chain {:trigger Survives(a, b, chain)} :: Reaches(a, chain) && Route(a, chain) != path ==> Survives(a, b, chain)
  }

  /** Every walkable route of `a` is still a walkable route of `b`, leading to the same payload. */
  ghost predicate KeepsAll(a: seq<Node>, b: seq<Node>)
  {
    forall chain {:trigger Survives(a, b, chain)} :: Reaches(a, chain) ==> Survives(a, b, chain)
  }

  /** With mirrored links, two chains from the root that end at the same node are the same chain. */
  lemma {:induction false} AncestryUnique(nodes: seq<Node>, c: seq<nat>, d: seq<nat>)
    requires Linked(nodes) && Ancestry(nodes, c) && Ancestry(nodes, d) && c[|c| - 1] == d[|d| - 1]
    ensures c == d
    decreases |c|
  {
    if |c| > 1 && |d| > 1 {
      assert nodes[c[|c| - 1]].parent == Some(c[|c| - 2]);
      assert nodes[d[|d| - 1]].parent == Some(d[|d| - 2]);
      AncestryUnique(nodes, c[..|c| - 1], d[..|d| - 1]);
      assert c == c[..|c| - 1] + [c[|c| - 1]];
      assert d == d[..|d| - 1] + [d[|d| - 1]];
    } else if |c| > 1 {
      BelowRoot(nodes, c);
    } else if |d| > 1 {
      BelowRoot(nodes, d);
    }
  }

  /** A chain of more than one node does not end at the root, which has no parent. */
  lemma BelowRoot(nodes: seq<Node>, chain: seq<nat>)
    requires Linked(nodes) && Ancestry(nodes, chain) && |chain| > 1
    ensures chain[|chain| - 1] != 0
  {
    assert nodes[chain[|chain| - 1]].parent == Some(chain[|chain| - 2]);
  }

  /** A change that keeps every node's parent, prefix, children and payload keeps every route. */
  lemma KeepsAllFrame(a: seq<Node>, b: seq<Node>)
    requires |a| <= |b|
    requires forall i :: 0 <= i < |a| ==> b[i].parent == a[i].parent && b[i].prefix == a[i].prefix && Payload(b[i]) == Payload(a[i])
    requires forall i, d: nat :: 0 <= i < |a| && ChildOf(a[i], d) ==> ChildOf(b[i], d)
    ensures KeepsAll(a, b)
  {
    forall chain | Reaches(a, chain)
      ensures Survives(a, b, chain)
    {
      RouteFrame(a, b, chain);
      assert Reaches(b, chain);
    }
  }

  /** Attaching a new node in a free slot keeps every route. */
  lemma AttachKeepsAll(a: seq<Node>, cur: nat, slot: Kind, child: Node)
    requires cur < |a|
    ensures SlotFree(a[cur], slot) ==> KeepsAll(a, a[cur := Attach(a[cur], slot, |a|)] + [child])
  {
    if SlotFree(a[cur], slot) {
      var b := a[cur := Attach(a[cur], slot, |a|)] + [child];
      assert forall i :: 0 <= i < |a| && i != cur ==> b[i] == a[i];
      KeepsAllFrame(a, b);
    }
  }

  /**
   * A change that keeps every node's parent, prefix and children, and the payload of every node
   * but `x`, keeps every route other than that of `x`.
   */
  lemma KeepsFrame(a: seq<Node>, b: seq<Node>, x: nat, cx: seq<nat>)
    requires Linked(a) && Ancestry(a, cx) && cx[|cx| - 1] == x && |a| <= |b|
    requires forall i :: 0 <= i < |a| ==> b[i].parent == a[i].parent && b[i].prefix == a[i].prefix
    requires forall i, d: nat :: 0 <= i < |a| && ChildOf(a[i], d) ==> ChildOf(b[i], d)
    requires forall i :: 0 <= i < |a| && i != x ==> Payload(b[i]) == Payload(a[i])
    ensures KeepsRoutes(a, b, Route(a, cx))
  {
    forall chain | Reaches(a, chain) && Route(a, chain) != Route(a, cx)
      ensures Survives(a, b, chain)
    {
      RouteFrame(a, b, chain);
      if chain[|chain| - 1] == x {
        AncestryUnique(a, chain, cx);
      }
      assert Reaches(b, chain);
    }
  }

  /** A change that keeps every route, followed by one that keeps every route but `path`, keeps every route but `path`. */
  lemma KeepsThen(a: seq<Node>, b: seq<Node>, c: seq<Node>, path: string)
    requires KeepsAll(a, b) && KeepsRoutes(b, c, path)
    ensures KeepsRoutes(a, c, path)
  {
    forall chain | Reaches(a, chain) && Route(a, chain) != path
      ensures Survives(a, c, chain)
    {
      assert Survives(a, b, chain);
      var mid :| Reaches(b, mid) && Route(b, mid) == Route(a, chain) &&
        Payload(b[mid[|mid| - 1]]) == Payload(a[chain[|chain| - 1]]);
      assert Survives(b, c, mid);
    }
  }

  /** Every route survives a change that changes nothing. */
  lemma KeepsSelf(a: seq<Node>, path: string)
    ensures KeepsRoutes(a, a, path)
  {
    forall chain | Reaches(a, chain) && Route(a, chain) != path
      ensures Survives(a, a, chain)
    {
      assert Reaches(a, chain);
    }
  }

  /**
   * `b` is `a` after the split of `x` after `lcpLen` bytes of its prefix: `x` keeps the first
   * part and its parent and has the new last node as a child, the new node holds the rest of the
   * prefix, the payload and the children of `x`, and the children of `x` name it as their parent.
   */
  ghost predicate SplitOf(a: seq<Node>, b: seq<Node>, x: nat, lcpLen: nat)
  {
    x < |a| && |b| == |a| + 1 && lcpLen <= |a[x].prefix| &&
    b[x].parent == a[x].parent && b[x].prefix == a[x].prefix[..lcpLen] && ChildOf(b[x], |a|) &&
    b[|a|].parent == Some(x) && b[|a|].prefix == a[x].prefix[lcpLen..] && Payload(b[|a|]) == Payload(a[x]) &&
    (forall d: nat :: ChildOf(a[x], d) ==> ChildOf(b[|a|], d)) &&
    forall i :: 0 <= i < |a| && i != x ==> b[i] == a[i].(parent := if ChildOf(a[x], i) then Some(|a|) else a[i].parent)
  }

  /** The route of a chain followed by `s` depends on the chain only through its route. */
  lemma {:induction false} RouteSuffix(a: seq<Node>, b: seq<Node>, pa: seq<nat>, pb: seq<nat>, s: seq<nat>)
    requires (forall k :: 0 <= k < |pa| ==> pa[k] < |a|) && (forall k :: 0 <= k < |pb| ==> pb[k] < |b|)
    requires forall k :: 0 <= k < |s| ==> s[k] < |a| && s[k] < |b| && b[s[k]].prefix == a[s[k]].prefix
    requires Route(b, pb) == Route(a, pa)
    ensures Route(b, pb + s) == Route(a, pa + s)
    decreases |s|
  {
    if s == [] {
      assert pa + s == pa && pb + s == pb;
    } else {
      var n := |s| - 1;
      RouteSuffix(a, b, pa, pb, s[..n]);
      assert (pa + s)[..|pa + s| - 1] == pa + s[..n];
      assert (pb + s)[..|pb + s| - 1] == pb + s[..n];
    }
  }

  /** A link of a walkable chain between two nodes other than the split node `x` is untouched by the split. */
  lemma KeptLink(a: seq<Node>, b: seq<Node>, x: nat, lcpLen: nat, chain: seq<nat>, k: nat)
    requires Linked(a) && SplitOf(a, b, x, lcpLen) && Reaches(a, chain)
    requires 0 < k < |chain| && chain[k] != x && chain[k - 1] != x
    ensures b[chain[k]].parent == Some(chain[k - 1]) && ChildOf(b[chain[k - 1]], chain[k])
  {
    assert ChildrenLinked(a, x);
  }

  /** With mirrored links a node occurs in a chain from the root only once. */
  lemma OnlyOnce(nodes: seq<Node>, chain: seq<nat>, j: nat)
    requires Linked(nodes) && Ancestry(nodes, chain) && j < |chain|
    ensures forall m :: 0 <= m < |chain| && m != j ==> chain[m] != chain[j]
  {
    forall m | 0 <= m < |chain| && m != j
      ensures chain[m] != chain[j]
    {
      if m < j {
        AncestryDistinct(nodes, chain, m, j);
      } else {
        AncestryDistinct(nodes, chain, j, m);
      }
    }
  }

  /** A walkable chain through the split node `x`, at `j`, stays walkable with the new node inserted after `x`. */
  lemma ThroughLinks(a: seq<Node>, b: seq<Node>, x: nat, lcpLen: nat, chain: seq<nat>, j: nat)
    requires Linked(a) && SplitOf(a, b, x, lcpLen) && Reaches(a, chain) && j < |chain| && chain[j] == x
    ensures Reaches(b, chain[..j + 1] + [|a|] + chain[j + 1..])
  {
    OnlyOnce(a, chain, j);
    var chain' := chain[..j + 1] + [|a|] + chain[j + 1..];
    forall k | 0 < k < |chain'|
      ensures b[chain'[k]].parent == Some(chain'[k - 1]) && ChildOf(b[chain'[k - 1]], chain'[k])
    {
      if k < j {
        KeptLink(a, b, x, lcpLen, chain, k);
      } else if k == j {
        assert b[chain[k - 1]] == a[chain[k - 1]].(parent := b[chain[k - 1]].parent);
      } else if k == j + 2 {
        assert ChildOf(a[x], chain[j + 1]);
      } else if k > j + 2 {
        KeptLink(a, b, x, lcpLen, chain, k - 1);
      }
    }
  }

  /** Up to the new node, a chain through the split node `x`, at `j`, spells what it spelled up to `x`. */
  lemma ThroughPrefix(a: seq<Node>, b: seq<Node>, x: nat, lcpLen: nat, chain: seq<nat>, j: nat)
    requires Linked(a) && SplitOf(a, b, x, lcpLen) && Ancestry(a, chain) && j < |chain| && chain[j] == x
    ensures Route(b, chain[..j + 1] + [|a|]) == Route(a, chain[..j + 1])
  {
    OnlyOnce(a, chain, j);
    var pre := chain[..j + 1] + [|a|];
    RouteFrame(a, b, chain[..j]);
    assert chain[..j + 1][..j] == chain[..j] && pre[..j + 1] == chain[..j + 1];
    assert a[x].prefix == a[x].prefix[..lcpLen] + a[x].prefix[lcpLen..];
  }

  /** Inserting the new node after the split node `x`, at `j`, keeps the route of a chain. */
  lemma ThroughRoute(a: seq<Node>, b: seq<Node>, x: nat, lcpLen: nat, chain: seq<nat>, j: nat)
    requires Linked(a) && SplitOf(a, b, x, lcpLen) && Ancestry(a, chain) && j < |chain| && chain[j] == x
    ensures Route(b, chain[..j + 1] + [|a|] + chain[j + 1..]) == Route(a, chain)
  {
    OnlyOnce(a, chain, j);
    ThroughPrefix(a, b, x, lcpLen, chain, j);
    var s := chain[j + 1..];
    forall k | 0 <= k < |s|
      ensures s[k] < |a| && s[k] < |b| && b[s[k]].prefix == a[s[k]].prefix
    {
      assert s[k] == chain[j + 1 + k];
    }
    assert chain == chain[..j + 1] + s;
    InsertedRoute(a, b, chain[..j + 1], s, |a|);
  }

  /**
   * A node `n` inserted between the parts `pa` and `s` of a chain keeps its route when `pa`
   * followed by `n` spells what `pa` spelled, and the nodes of `s` keep their prefixes.
   */
  lemma InsertedRoute(a: seq<Node>, b: seq<Node>, pa: seq<nat>, s: seq<nat>, n: nat)
    requires n < |b| && (forall k :: 0 <= k < |pa| ==> pa[k] < |a| && pa[k] < |b|)
    requires forall k :: 0 <= k < |s| ==> s[k] < |a| && s[k] < |b| && b[s[k]].prefix == a[s[k]].prefix
    requires Route(b, pa + [n]) == Route(a, pa)
    ensures Route(b, pa + [n] + s) == Route(a, pa + s)
  {
    RouteSuffix(a, b, pa, pa + [n], s);
  }

  /** Every walkable chain of `a` has a walkable counterpart after the split, through the new node when it went through `x`. */
  lemma SplitSurvivor(a: seq<Node>, b: seq<Node>, x: nat, lcpLen: nat, chain: seq<nat>) returns (chain': seq<nat>)
    requires Linked(a) && SplitOf(a, b, x, lcpLen) && Reaches(a, chain)
    ensures Reaches(b, chain') && Route(b, chain') == Route(a, chain)
    ensures Payload(b[chain'[|chain'| - 1]]) == Payload(a[chain[|chain| - 1]])
  {
    if j :| 0 <= j < |chain| && chain[j] == x {
      ThroughLinks(a, b, x, lcpLen, chain, j);
      ThroughRoute(a, b, x, lcpLen, chain, j);
      OnlyOnce(a, chain, j);
      chain' := chain[..j + 1] + [|a|] + chain[j + 1..];
    } else {
      forall k | 0 < k < |chain|
        ensures b[chain[k]].parent == Some(chain[k - 1]) && ChildOf(b[chain[k - 1]], chain[k])
      {
        KeptLink(a, b, x, lcpLen, chain, k);
      }
      RouteFrame(a, b, chain);
      chain' := chain;
    }
  }

  /** A split keeps every route: a chain through the split node goes on through the new node. */
  lemma SplitKeeps(a: seq<Node>, b: seq<Node>, x: nat, lcpLen: nat)
    requires Linked(a) && SplitOf(a, b, x, lcpLen)
    ensures KeepsAll(a, b)
  {
    forall chain | Reaches(a, chain)
      ensures Survives(a, b, chain)
    {
      var chain' := SplitSurvivor(a, b, x, lcpLen, chain);
    }
  }

  /** Adding a child into `slot` of `n` loses no child: the slot is the static children's, or it is empty. */
  predicate SlotFree(n: Node, slot: Kind)
  {
    match slot
    case Static => true
    case Param => n.paramChild.None?
    case Any => n.anyChild.None?
  }

  /** The route above a node, the shared part of its prefix and the rest of the search make up the whole route. */
  lemma Rejoin(above: string, prefix: string, search: string, lcpLen: nat)
    requires lcpLen <= |search| && lcpLen <= |prefix| && search[..lcpLen] == prefix[..lcpLen]
    ensures above + prefix[..lcpLen] + search[lcpLen..] == above + search
  {
    assert search == search[..lcpLen] + search[lcpLen..];
  }

  /** No param child is in the way of a ':' and no any child in the way of a '*'. */
  predicate SlotOpen(n: Node, l: char)
  {
    (l == ParamLabel ==> n.paramChild.None?) && (l == AnyLabel ==> n.anyChild.None?)
  }

  /** When no child is found for the byte `l`, the slot `l` would select is open. */
  lemma NoChildOpen(nodes: seq<Node>, n: Node, l: char)
    requires LinksIn(n, |nodes|) && ChildWithLabel(nodes, n, l).None?
    ensures SlotOpen(n, l)
  {
  }

  /**
   * When the child added for the rest of the search has its kind's slot and the labels are still
   * right afterwards, the slot was free: the rest starts with the slot's byte, and no child was
   * found for that byte.
   */
  lemma ChildSlotFree(a: seq<Node>, b: seq<Node>, x: nat, search: string, lcpLen: nat, t: Kind, c: nat)
    requires x < |a| && x < |b| && c < |b| && lcpLen < |search| && LabelsOk(b)
    requires SlotOpen(a[x], search[lcpLen]) && b[c].prefix == search[lcpLen..]
    requires t == Param ==> b[x].paramChild == Some(c)
    requires t == Any ==> b[x].anyChild == Some(c)
    ensures SlotFree(a[x], t)
  {
    assert ChildLabelsOk(b, b[x]);
  }

  class Router {
    var nodes: seq<Node>
    /** The largest number of parameter names of any route, shared with the contexts' sizing. */
    var maxParam: nat

    /**
     * The arena is closed under links, a node with a handler in some slot is marked as a
     * handler, every node except a still-unused root carries the right leaf mark, and parent
     * links mirror child links.
     */
    ghost predicate Valid()
      reads this
    {
      ValidNodes(nodes) && Linked(nodes)
    }

    /** `newRouter`: a root with an empty prefix and no handlers. */
    constructor ()
      ensures Valid() && maxParam == 0
      ensures nodes == [Node(Static, 0 as char, "", None, [], "", [], NoHandlers, None, None, false, false)]
    {
      nodes := [Node(Static, 0 as char, "", None, [], "", [], NoHandlers, None, None, false, false)];
      maxParam := 0;
    }

    /**
     * `insert`: walks down from the root along the longest common prefixes, splitting a node
     * whose prefix is only partly shared, and ends at the node `at` whose route from the root
     * (its ancestors' prefixes and its own, joined) is `path`; a handler for one of the four
     * methods is stored there together with `ppath`. It raises `maxParam` to the number of
     * names, never lowering it.
     */
    method Insert(verb: string, path: string, h: Option<Handler>, t: Kind, ppath: string, pnames: seq<string>)
      returns (ghost at: nat, ghost chain: seq<nat>)
      requires Valid() && |path| > 0
      modifies this
      ensures Valid() && |nodes| >= old(|nodes|)
      ensures maxParam == if old(maxParam) < |pnames| then |pnames| else old(maxParam)
      ensures Ancestry(nodes, chain) && chain[|chain| - 1] == at && Route(nodes, chain) == path
      ensures h.Some? && IsMethod(verb) ==> FindHandler(nodes[at].methodHandler, verb) == h && nodes[at].ppath == ppath
      ensures LabelsOk(old(nodes)) && LabelsOk(nodes) && RootShared(old(nodes), path) ==> KeepsRoutes(old(nodes), nodes, path)
    {
      if maxParam < |pnames| {
        maxParam := |pnames|;
      }
      var cur, search, lcpLen, above := Locate(path);
      if 0 < lcpLen == |nodes[cur].prefix| < |search| {
        assert NodeOk(nodes[cur], cur, |nodes|);
        NoChildOpen(nodes, nodes[cur], search[lcpLen]);
      }
      at, chain := Place(cur, search, lcpLen, verb, h, t, ppath, pnames, above);
    }

    /**
     * The descending part of `insert`'s loop: from the root, it follows the child labelled with
     * the next byte while a node's whole prefix matches and some of the path is left. It stops at
     * the node `cur` that `insert` changes, with the rest of the path `search` and the length of
     * the common prefix of `search` and the node's prefix; the nodes above `cur` spell the rest.
     */
    method Locate(path: string) returns (cur: nat, search: string, lcpLen: nat, ghost chain: seq<nat>)
      requires Valid() && |path| > 0
      ensures cur < |nodes| && |search| > 0 && Ancestry(nodes, chain) && chain[|chain| - 1] == cur
      ensures Route(nodes, chain[..|chain| - 1]) + search == path
      ensures lcpLen <= |search| && lcpLen <= |nodes[cur].prefix| && search[..lcpLen] == nodes[cur].prefix[..lcpLen]
      ensures lcpLen < |search| && lcpLen < |nodes[cur].prefix| ==> search[lcpLen] != nodes[cur].prefix[lcpLen]
      ensures 0 < lcpLen == |nodes[cur].prefix| < |search| ==> ChildWithLabel(nodes, nodes[cur], search[lcpLen]).None?
      ensures LabelsOk(nodes) && RootShared(nodes, path) ==> 0 < lcpLen
    {
      cur := 0;
      search := path;
      chain := [0];
      while true
        invariant 0 <= cur < |nodes| && |search| > 0
        invariant Ancestry(nodes, chain) && chain[|chain| - 1] == cur
        invariant Route(nodes, chain[..|chain| - 1]) + search == path
        invariant LabelsOk(nodes) && RootShared(nodes, path) ==> StartsWith(nodes[cur].prefix, search[0])
        decreases |search|
      {
        var node := nodes[cur];
        assert NodeOk(node, cur, |nodes|);
        lcpLen := CommonPrefixLength(search, node.prefix);
        if 0 < lcpLen == |node.prefix| < |search| {
          var c := ChildWithLabel(nodes, node, search[lcpLen]);
          if LabelsOk(nodes) {
            LabelledChild(nodes, cur, search[lcpLen]);
          }
          if c.Some? {
            // Go deeper
            DescendRoute(nodes, chain, c.value, search, path);
            chain := chain + [c.value];
            cur := c.value;
            search := search[lcpLen..];
            continue;
          }
        }
        return;
      }
    }

    /**
     * The changing part of `insert`'s loop, at the node `Locate` stopped at: it takes over the
     * root, splits the node, adds a child for the rest of the search, or stores the handler at
     * the node itself. The node `at` it ends at has the route above `cur` followed by `search`.
     */
    method Place(cur: nat, search: string, lcpLen: nat, verb: string, h: Option<Handler>, t: Kind, ppath: string, pnames: seq<string>, ghost chain: seq<nat>)
      returns (ghost at: nat, ghost chain': seq<nat>)
      requires Valid() && cur < |nodes| && |search| > 0 && Ancestry(nodes, chain) && chain[|chain| - 1] == cur
      requires lcpLen <= |search| && lcpLen <= |nodes[cur].prefix| && search[..lcpLen] == nodes[cur].prefix[..lcpLen]
      requires 0 < lcpLen == |nodes[cur].prefix| < |search| ==> SlotOpen(nodes[cur], search[lcpLen])
      modifies this
      ensures Valid() && |nodes| >= old(|nodes|) && maxParam == old(maxParam)
      ensures Ancestry(nodes, chain') && chain'[|chain'| - 1] == at
      ensures Route(nodes, chain') == Route(old(nodes), chain[..|chain| - 1]) + search
      ensures h.Some? && IsMethod(verb) ==> FindHandler(nodes[at].methodHandler, verb) == h && nodes[at].ppath == ppath
      ensures 0 < lcpLen && LabelsOk(nodes) ==> KeepsRoutes(old(nodes), nodes, Route(old(nodes), chain[..|chain| - 1]) + search)
    {
      var node := nodes[cur];
      ghost var above := Route(nodes, chain[..|chain| - 1]);
      assert Route(nodes, chain) == above + node.prefix;
      chain' := chain;
      if lcpLen == 0 {
        // At root
        at := SetRoot(cur, search, verb, h, t, ppath, pnames, chain);
      } else if lcpLen < |node.prefix| {
        at, chain' := PlaceSplit(cur, search, lcpLen, verb, h, t, ppath, pnames, chain);
      } else if lcpLen < |search| {
        ghost var before := nodes;
        Rejoin(above, node.prefix, search, lcpLen);
        assert node.prefix[..lcpLen] == node.prefix;
        at := AddChild(cur, search[lcpLen..], verb, h, t, t, ppath, pnames, chain);
        chain' := chain + [at];
        if LabelsOk(nodes) {
          ChildSlotFree(before, nodes, cur, search, lcpLen, t, at);
        }
      } else {
        // The node already exists
        at := cur;
        assert search == node.prefix;
        if h.Some? {
          SetExisting(cur, verb, h, ppath, pnames, chain);
        } else {
          KeepsSelf(nodes, above + search);
        }
      }
    }

    /**
     * The split step of `insert`: the node keeps the shared part of its prefix and hands the rest
     * to a new child; the handler then goes to the node itself when the search ends there, or to
     * a second new child for the rest of the search.
     */
    method PlaceSplit(cur: nat, search: string, lcpLen: nat, verb: string, h: Option<Handler>, t: Kind, ppath: string, pnames: seq<string>, ghost chain: seq<nat>)
      returns (ghost at: nat, ghost chain': seq<nat>)
      requires Valid() && cur < |nodes| && Ancestry(nodes, chain) && chain[|chain| - 1] == cur
      requires 0 < lcpLen <= |search| && lcpLen < |nodes[cur].prefix| && search[..lcpLen] == nodes[cur].prefix[..lcpLen]
      modifies this
      ensures Valid() && |nodes| >= old(|nodes|) && maxParam == old(maxParam)
      ensures Ancestry(nodes, chain') && chain'[|chain'| - 1] == at
      ensures Route(nodes, chain') == Route(old(nodes), chain[..|chain| - 1]) + search
      ensures h.Some? && IsMethod(verb) ==> FindHandler(nodes[at].methodHandler, verb) == h && nodes[at].ppath == ppath
      ensures KeepsRoutes(old(nodes), nodes, Route(old(nodes), chain[..|chain| - 1]) + search)
    {
      ghost var above := Route(nodes, chain[..|chain| - 1]);
      ghost var before := nodes;
      SplitNode(cur, lcpLen, chain);
      ghost var split := nodes;
      Rejoin(above, before[cur].prefix, search, lcpLen);
      at, chain' := FinishSplit(cur, search[lcpLen..], verb, h, t, ppath, pnames, chain);
      KeepsThen(before, split, nodes, above + search);
    }

    /**
     * The second half of the split step: the handler goes to the shortened node itself when the
     * search ends there, or to a new static child for the `rest` of the search.
     */
    method FinishSplit(cur: nat, rest: string, verb: string, h: Option<Handler>, t: Kind, ppath: string, pnames: seq<string>, ghost chain: seq<nat>)
      returns (ghost at: nat, ghost chain': seq<nat>)
      requires Valid() && cur < |nodes| && Ancestry(nodes, chain) && chain[|chain| - 1] == cur
      modifies this
      ensures Valid() && |nodes| >= old(|nodes|) && maxParam == old(maxParam)
      ensures Ancestry(nodes, chain') && chain'[|chain'| - 1] == at
      ensures Route(nodes, chain') == Route(old(nodes), chain) + rest
      ensures h.Some? && IsMethod(verb) ==> FindHandler(nodes[at].methodHandler, verb) == h && nodes[at].ppath == ppath
      ensures KeepsRoutes(old(nodes), nodes, Route(old(nodes), chain) + rest)
    {
      chain' := chain;
      if rest == [] {
        at := SetSplitParent(cur, verb, h, t, ppath, pnames, chain);
        assert Route(old(nodes), chain) + rest == Route(old(nodes), chain);
      } else {
        // The new node has the route's kind but, as in the source, joins the static children
        at := AddChild(cur, rest, verb, h, t, Static, ppath, pnames, chain);
        chain' := chain + [at];
      }
    }

    /** The "at root" step of `insert`: the node takes the whole search as its prefix, and the handler when there is one. */
    method SetRoot(cur: nat, search: string, verb: string, h: Option<Handler>, t: Kind, ppath: string, pnames: seq<string>, ghost chain: seq<nat>)
      returns (at: nat)
      requires Valid() && cur < |nodes| && |search| > 0 && Ancestry(nodes, chain) && chain[|chain| - 1] == cur
      modifies this
      ensures Ancestry(nodes, chain) && Route(nodes, chain) == Route(old(nodes), chain[..|chain| - 1]) + search
      ensures Valid() && |nodes| == old(|nodes|) && maxParam == old(maxParam) && at == cur
      ensures forall i :: 0 <= i < |nodes| && i != cur ==> nodes[i] == old(nodes[i])
      ensures nodes[cur].parent == old(nodes[cur].parent)
      ensures nodes[cur].prefix == search && nodes[cur].lbl == search[0]
      ensures h.Some? ==> nodes[cur].kind == t && nodes[cur].ppath == ppath && nodes[cur].pnames == pnames
      ensures h.Some? && IsMethod(verb) ==> FindHandler(nodes[cur].methodHandler, verb) == h
    {
      var n := nodes[cur].(lbl := search[0], prefix := search);
      assert NodeOk(nodes[cur], cur, |nodes|);
      if h.Some? {
        n := AddHandler(n.(kind := t), verb, h).(ppath := ppath, pnames := pnames);
      }
      n := n.(isLeaf := IsLeafNode(n));
      ReplaceOk(nodes, cur, n);
      ReplaceLinked(nodes, cur, n);
      ghost var before := nodes;
      nodes := nodes[cur := n];
      at := cur;
      ChainFrame(before, nodes, chain, cur);
    }

    /** The "at parent node" step after a split: the shortened node takes the kind, the handler, `ppath` and `pnames`. */
    method SetSplitParent(cur: nat, verb: string, h: Option<Handler>, t: Kind, ppath: string, pnames: seq<string>, ghost chain: seq<nat>)
      returns (at: nat)
      requires Valid() && cur < |nodes| && Ancestry(nodes, chain) && chain[|chain| - 1] == cur
      modifies this
      ensures Ancestry(nodes, chain) && Route(nodes, chain) == Route(old(nodes), chain)
      ensures Valid() && |nodes| == old(|nodes|) && maxParam == old(maxParam) && at == cur
      ensures forall i :: 0 <= i < |nodes| && i != cur ==> nodes[i] == old(nodes[i])
      ensures nodes[cur].parent == old(nodes[cur].parent) && nodes[cur].prefix == old(nodes[cur].prefix)
      ensures nodes[cur].kind == t && nodes[cur].ppath == ppath && nodes[cur].pnames == pnames
      ensures IsMethod(verb) ==> FindHandler(nodes[cur].methodHandler, verb) == h
      ensures KeepsRoutes(old(nodes), nodes, Route(old(nodes), chain))
    {
      assert NodeOk(nodes[cur], cur, |nodes|);
      var parent := AddHandler(nodes[cur].(kind := t), verb, h).(ppath := ppath, pnames := pnames);
      parent := parent.(isLeaf := IsLeafNode(parent));
      ReplaceOk(nodes, cur, parent);
      ReplaceLinked(nodes, cur, parent);
      ghost var before := nodes;
      nodes := nodes[cur := parent];
      at := cur;
      ChainFrame(before, nodes, chain, cur);
      KeepsFrame(before, nodes, cur, chain);
    }

    /**
     * The "create child node" step: a new node of kind `t` for the rest of the search, holding
     * the handler, becomes a static, param or any child of `cur` according to `slot`.
     */
    method AddChild(cur: nat, search: string, verb: string, h: Option<Handler>, t: Kind, slot: Kind, ppath: string, pnames: seq<string>, ghost chain: seq<nat>)
      returns (at: nat)
      requires Valid() && cur < |nodes| && |search| > 0 && Ancestry(nodes, chain) && chain[|chain| - 1] == cur
      modifies this
      ensures Ancestry(nodes, chain + [at]) && Route(nodes, chain + [at]) == Route(old(nodes), chain) + search
      ensures Valid() && |nodes| == old(|nodes|) + 1 && maxParam == old(maxParam) && at == |nodes| - 1
      ensures forall i :: 0 <= i < old(|nodes|) && i != cur ==> nodes[i] == old(nodes[i])
      ensures nodes[cur].parent == old(nodes[cur].parent) && nodes[cur].prefix == old(nodes[cur].prefix)
      ensures nodes[at].prefix == search && nodes[at].kind == t && nodes[at].parent == Some(cur)
      ensures nodes[at].ppath == ppath && nodes[at].pnames == pnames && IsLeafNode(nodes[at])
      ensures IsMethod(verb) ==> FindHandler(nodes[at].methodHandler, verb) == h
      ensures slot == Static ==> nodes[cur].staticChildren == old(nodes[cur].staticChildren) + [at]
      ensures slot == Param ==> nodes[cur].paramChild == Some(at)
      ensures slot == Any ==> nodes[cur].anyChild == Some(at)
      ensures Payload(nodes[cur]) == Payload(old(nodes[cur]))
      ensures SlotFree(old(nodes[cur]), slot) ==> KeepsAll(old(nodes), nodes)
    {
      assert NodeOk(nodes[cur], cur, |nodes|);
      var child := AddHandler(NewNode(t, search, Some(cur), [], NoHandlers, ppath, pnames, None, None), verb, h);
      at := |nodes|;
      var parent := Attach(nodes[cur], slot, at);
      ReplaceAppendOk(nodes, cur, parent, child);
      AppendChildLinked(nodes, cur, parent, child);
      AppendChain(nodes, chain, parent, child);
      AttachKeepsAll(nodes, cur, slot, child);
      nodes := nodes[cur := parent] + [child];
    }

    /** The "node already exists" step: the handler and `ppath` are set, and `pnames` only if the node has none (echo issue #729). */
    method SetExisting(cur: nat, verb: string, h: Option<Handler>, ppath: string, pnames: seq<string>, ghost chain: seq<nat>)
      requires Valid() && cur < |nodes| && h.Some? && Ancestry(nodes, chain) && chain[|chain| - 1] == cur
      modifies this
      ensures Ancestry(nodes, chain) && Route(nodes, chain) == Route(old(nodes), chain)
      ensures Valid() && |nodes| == old(|nodes|) && maxParam == old(maxParam)
      ensures forall i :: 0 <= i < |nodes| && i != cur ==> nodes[i] == old(nodes[i])
      ensures nodes[cur].parent == old(nodes[cur].parent) && nodes[cur].prefix == old(nodes[cur].prefix)
      ensures nodes[cur].ppath == ppath
      ensures nodes[cur].pnames == if old(nodes[cur].pnames) == [] then pnames else old(nodes[cur].pnames)
      ensures IsMethod(verb) ==> FindHandler(nodes[cur].methodHandler, verb) == h
      ensures KeepsRoutes(old(nodes), nodes, Route(old(nodes), chain))
    {
      assert NodeOk(nodes[cur], cur, |nodes|);
      var n := AddHandler(nodes[cur], verb, h).(ppath := ppath);
      if |n.pnames| == 0 {
        n := n.(pnames := pnames);
      }
      ReplaceOk(nodes, cur, n);
      ReplaceLinked(nodes, cur, n);
      ghost var before := nodes;
      nodes := nodes[cur := n];
      ChainFrame(before, nodes, chain, cur);
      KeepsFrame(before, nodes, cur, chain);
    }

    /**
     * The split step of `insert`: node `cur` keeps the first `lcpLen` bytes of its prefix and
     * becomes a bare static node whose only child is a new node holding the rest of the prefix
     * together with everything `cur` had (kind, children, handlers, ppath and pnames); the moved
     * children are re-parented to the new node.
     */
    method SplitNode(cur: nat, lcpLen: nat, ghost chain: seq<nat>)
      requires Valid() && cur < |nodes| && 0 < lcpLen < |nodes[cur].prefix| && Ancestry(nodes, chain) && chain[|chain| - 1] == cur
      modifies this
      ensures Ancestry(nodes, chain) && Route(nodes, chain) == Route(old(nodes), chain[..|chain| - 1]) + old(nodes[cur].prefix[..lcpLen])
      ensures Valid()
      ensures |nodes| == old(|nodes|) + 1
      ensures forall i :: 0 <= i < old(|nodes|) && i != cur ==>
        nodes[i] == old(nodes[i]).(parent := if ChildOf(old(nodes[cur]), i) then Some(old(|nodes|)) else old(nodes[i].parent))
      ensures nodes[cur].parent == old(nodes[cur].parent)
      ensures maxParam == old(maxParam)
      ensures var before := old(nodes[cur]);
        nodes[|nodes| - 1] == NewNode(before.kind, before.prefix[lcpLen..], Some(cur), before.staticChildren,
          before.methodHandler, before.ppath, before.pnames, before.paramChild, before.anyChild)
      ensures var before := old(nodes[cur]);
        nodes[cur] == Node(Static, before.prefix[0], before.prefix[..lcpLen], nodes[cur].parent, [|nodes| - 1], "", [],
          NoHandlers, None, None, false, false)
      ensures KeepsAll(old(nodes), nodes)
    {
      ghost var before := nodes;
      NotOwnParent(nodes, chain);
      var node := nodes[cur];
      assert !ChildOf(node, cur) by {
        assert ChildrenLinked(nodes, cur);
      }
      var newIndex := MoveToNewChild(cur, lcpLen);
      // Reset the parent node; only static children can reach here
      var reset := nodes[cur].(kind := Static, lbl := node.prefix[0], prefix := node.prefix[..lcpLen],
        staticChildren := [newIndex], methodHandler := NoHandlers, ppath := "", pnames := [],
        paramChild := None, anyChild := None, isLeaf := false, isHandler := false);
      assert NodeOk(nodes[cur], cur, |nodes|);
      ReplaceOk(nodes, cur, reset);
      nodes := nodes[cur := reset];
      SplitChain(before, nodes, chain, lcpLen);
      SplitKeeps(before, nodes, cur, lcpLen);
    }

    /**
     * The first half of the split step: appends the node holding the rest of the prefix of `cur`
     * and everything `cur` has, as a child of `cur`, and re-parents the children of `cur` to it.
     */
    method MoveToNewChild(cur: nat, lcpLen: nat) returns (newIndex: nat)
      requires ValidNodes(nodes) && cur < |nodes| && lcpLen < |nodes[cur].prefix| && !ChildOf(nodes[cur], cur)
      modifies this
      ensures ValidNodes(nodes) && newIndex == old(|nodes|) && |nodes| == newIndex + 1 && maxParam == old(maxParam)
      ensures nodes[cur] == old(nodes[cur])
      ensures forall i :: 0 <= i < newIndex && i != cur ==>
        nodes[i] == old(nodes[i]).(parent := if ChildOf(old(nodes[cur]), i) then Some(newIndex) else old(nodes[i].parent))
      ensures var before := old(nodes[cur]);
        nodes[newIndex] == NewNode(before.kind, before.prefix[lcpLen..], Some(cur), before.staticChildren,
          before.methodHandler, before.ppath, before.pnames, before.paramChild, before.anyChild)
    {
      var node := nodes[cur];
      assert NodeOk(node, cur, |nodes|);
      newIndex := |nodes|;
      var n := NewNode(node.kind, node.prefix[lcpLen..], Some(cur), node.staticChildren, node.methodHandler,
        node.ppath, node.pnames, node.paramChild, node.anyChild);
      ReplaceAppendOk(nodes, cur, node, n);
      assert nodes[cur := node] == nodes;
      nodes := nodes + [n];
      ReparentChildren(node, newIndex);
    }

    /**
     * Updates the parent link of all the children of `node` (static, param and any) to the
     * node at `p`, which comes after all of them in the arena and so keeps its own links.
     */
    method ReparentChildren(node: Node, p: nat)
      requires ValidNodes(nodes) && p < |nodes| && LinksIn(node, p)
      modifies this
      ensures ValidNodes(nodes) && |nodes| == old(|nodes|) && maxParam == old(maxParam)
      ensures forall i :: 0 <= i < |nodes| ==>
        nodes[i] == if ChildOf(node, i) then old(nodes[i]).(parent := Some(p)) else old(nodes[i])
      ensures nodes[p] == old(nodes[p])
      ensures forall c :: c in node.staticChildren ==> nodes[c].parent == Some(p)
      ensures node.paramChild.Some? ==> nodes[node.paramChild.value].parent == Some(p)
      ensures node.anyChild.Some? ==> nodes[node.anyChild.value].parent == Some(p)
    {
      ReparentStatics(node.staticChildren, p);
      ghost var statics := nodes;
      ReparentOne(node.paramChild, p);
      ghost var params := nodes;
      ReparentOne(node.anyChild, p);
      ReparentedAll(old(nodes), statics, params, nodes, node, p);
      assert forall j :: 0 <= j < |node.staticChildren| ==> node.staticChildren[j] != p;
      assert !ChildOf(node, p);
    }

    /** Updates the parent link of the node `c` names, if any, to the node at `p`. */
    method ReparentOne(c: Option<nat>, p: nat)
      requires ValidNodes(nodes) && p < |nodes| && (c.Some? ==> c.value < |nodes|)
      modifies this
      ensures ValidNodes(nodes) && |nodes| == old(|nodes|) && maxParam == old(maxParam)
      ensures forall i :: 0 <= i < |nodes| ==>
        nodes[i] == if c == Some(i) then old(nodes[i]).(parent := Some(p)) else old(nodes[i])
    {
      if c.Some? {
        SetParent(c.value, p);
      }
    }

    /** Updates the parent link of each node of `children` to the node at `p`. */
    method ReparentStatics(children: seq<nat>, p: nat)
      requires ValidNodes(nodes) && p < |nodes| && forall k :: 0 <= k < |children| ==> children[k] < |nodes|
      modifies this
      ensures ValidNodes(nodes) && |nodes| == old(|nodes|) && maxParam == old(maxParam)
      ensures forall i :: 0 <= i < |nodes| ==>
        nodes[i] == if i in children then old(nodes[i]).(parent := Some(p)) else old(nodes[i])
    {
      var k := 0;
      while k < |children|
        invariant 0 <= k <= |children| && |nodes| == old(|nodes|)
        invariant ValidNodes(nodes) && maxParam == old(maxParam)
        invariant forall i :: 0 <= i < |nodes| ==>
          nodes[i] == if i in children[..k] then old(nodes[i]).(parent := Some(p)) else old(nodes[i])
      {
        assert children[..k + 1] == children[..k] + [children[k]];
        SetParent(children[k], p);
        k := k + 1;
      }
      assert children[..k] == children;
    }

    method SetParent(c: nat, p: nat)
      requires ValidNodes(nodes) && c < |nodes| && p < |nodes|
      modifies this
      ensures ValidNodes(nodes) && |nodes| == old(|nodes|) && maxParam == old(maxParam)
      ensures nodes[c] == old(nodes[c]).(parent := Some(p))
      ensures forall i :: 0 <= i < |nodes| && i != c ==> nodes[i] == old(nodes[i])
    {
      assert NodeOk(nodes[c], c, |nodes|);
      ReplaceOk(nodes, c, nodes[c].(parent := Some(p)));
      nodes := nodes[c := nodes[c].(parent := Some(p))];
    }

    /**
     * The parameter branch of `Add`, at an unescaped ':' at `i`: inserts the static node before
     * it, cuts the parameter's name out of the path and records it, then inserts the parameter
     * node, with the handler when the parameter ends the route. The scan resumes at `i'`.
     */
    method AddParam(verb: string, p: string, i: nat, pnames: seq<string>, h: Option<Handler>, ppath: string, ghost m0: int)
      returns (p': string, i': nat, pnames': seq<string>)
      requires Valid() && i < |p| && p[0] == '/' && p[i] == ':' && !(i > 0 && p[i - 1] == '\\')
      requires Scan(p[..i], p[i..], pnames) == Scan("", ppath, [])
      requires m0 <= maxParam <= if m0 < |pnames| then |pnames| else m0
      modifies this
      ensures Valid() && i' <= |p'| && |p'| > 0 && p'[0] == '/' && |p'| - i' < |p| - i
      ensures Scan(p'[..i'], p'[i'..], pnames') == Scan("", ppath, [])
      ensures m0 <= maxParam <= if m0 < |pnames'| then |pnames'| else m0
    {
      // The path and name arithmetic first; the inserts below change only the tree
      var j := i + 1;
      var n := ParamValueLength(p[j..]);
      ScanParamStep(p, i, pnames);
      CutSlices(p, j, n);
      pnames' := pnames + [p[j..j + n]];
      p' := p[..j] + p[j + n..];
      assert p'[0] == p'[..j][0] == p[0];
      i' := j;
      var last := i' == |p'|;
      if !last {
        ScanStep(p', i', pnames');
      }
      ghost var at: nat, chain: seq<nat>;
      at, chain := Insert(verb, p[..i], None, Static, "", []);
      if last {
        // The param is the last fragment of the route path
        at, chain := Insert(verb, p'[..i'], h, Param, ppath, pnames');
      } else {
        at, chain := Insert(verb, p'[..i'], None, Param, "", []);
        // The loop's increment passes over the '/' that ends the name
        i' := i' + 1;
      }
    }

    /**
     * `Add`: validates the path, then inserts a static node before every parameter or
     * wildcard, a param node for each `:name` (named `ppath` only when it ends the path), an
     * any node for `*`, and finally the whole path, which carries `h` for the method `verb`.
     */
    method Add(verb: string, path: string, h: Option<Handler>) returns (ghost at: nat, ghost chain: seq<nat>)
      requires Valid()
      modifies this
      ensures Valid()
      ensures maxParam == if old(maxParam) < |RouteParamNames(path)| then |RouteParamNames(path)| else old(maxParam)
      ensures Ancestry(nodes, chain) && chain[|chain| - 1] == at && Route(nodes, chain) == RoutePattern(path)
      ensures h.Some? && IsMethod(verb) ==> FindHandler(nodes[at].methodHandler, verb) == h && nodes[at].ppath == NormalizePath(path)
    {
      var p := NormalizePath(path);
      var pnames: seq<string> := [];
      var ppath := p;
      var i := 0;
      ScanKeepsNames("", p, []);
      while i < |p|
        invariant 0 <= i <= |p| && |p| > 0 && p[0] == '/'
        invariant Valid()
        invariant Scan(p[..i], p[i..], pnames) == Scan("", ppath, [])
        invariant old(maxParam) <= maxParam <= if old(maxParam) < |pnames| then |pnames| else old(maxParam)
        decreases |p| - i
      {
        if p[i] == ':' {
          if i > 0 && p[i - 1] == '\\' {
            // Drop the backslash; the loop's increment then brings `i` past the literal ':'
            ScanEscapeStep(p, i, pnames);
            p := p[..i - 1] + p[i..];
            assert p[0] == '/';
            continue;
          }
          p, i, pnames := AddParam(verb, p, i, pnames, h, ppath, old(maxParam));
        } else if p[i] == '*' {
          at, chain := Insert(verb, p[..i], None, Static, "", []);
          ScanStep(p, i, pnames);
          pnames := pnames + ["*"];
          at, chain := Insert(verb, p[..i + 1], h, Any, ppath, pnames);
          i := i + 1;
        } else {
          ScanStep(p, i, pnames);
          i := i + 1;
        }
      }
      assert p[..i] == p && p[i..] == [];
      assert pnames == RouteParamNames(path) && p == RoutePattern(path);
      at, chain := Insert(verb, p, h, Static, ppath, pnames);
    }

    /**
     * `Find`: walks the tree for `path` with priority static > param > any, writing parameter
     * values into the context's buffer and backtracking from dead ends. On a match the context
     * gets the handler for `verb` and the route's path and names; when only the path matched,
     * the first node the path reached gets `NotFoundHandler`; when nothing matched the handler is
     * left alone. The node found ends a chain from the root that spells `path` (when the tree's
     * slots hold nodes of their kinds). Go's loop is unbounded: `fuel` caps its iterations.
     */
    method Find(verb: string, path: string, ctx: Context, fuel: nat) returns (outcome: FindOutcome, found: Option<nat>, ghost route: Trail)
      requires Valid()
      modifies ctx, ctx.pvalues
      ensures found.Some? <==> outcome == Matched || outcome == MethodNotFound
      ensures found.Some? ==> found.value < |nodes| && ctx.path == nodes[found.value].ppath && ctx.pnames == nodes[found.value].pnames
      ensures found.Some? && KindsOk(nodes) ==> Spells(nodes, route, path) && route.chain[|route.chain| - 1] == found.value
      ensures outcome == Matched && KindsOk(nodes) && nodes[found.value].kind != Any ==>
        Values(nodes, route.chain, route.segs) <= ctx.pvalues[..]
      ensures outcome == Matched ==> FindHandler(nodes[found.value].methodHandler, verb) == Some(ctx.handler)
      ensures outcome == MethodNotFound ==> ctx.handler == NotFoundHandler && FindHandler(nodes[found.value].methodHandler, verb).None?
      ensures outcome == Panicked ==> ctx.path == path && ctx.pnames == old(ctx.pnames)
      ensures outcome == NoRoute || outcome == OutOfFuel ==>
        ctx.path == path && ctx.pnames == old(ctx.pnames) && ctx.handler == old(ctx.handler)
    {
      ctx.path := path;
      var st, early, tr, btr := Search(verb, path, ctx.pvalues, fuel);
      route := tr;
      if early.Some? {
        return early.value, None, route;
      }
      if st.curNil && st.best.None? {
        // Nothing matched at all
        return NoRoute, None, route;
      }
      var at: nat;
      if st.matched.Some? {
        ctx.handler := st.matched.value;
        at := st.cur;
        outcome := Matched;
      } else {
        ctx.handler := NotFoundHandler;
        if st.best.None? {
          // The source dereferences a nil node here
          return Panicked, None, route;
        }
        at := st.best.value;
        route := btr;
        outcome := MethodNotFound;
      }
      ctx.path := nodes[at].ppath;
      ctx.pnames := nodes[at].pnames;
      found := Some(at);
    }

    /**
     * The loop of `Find`, for at most `fuel` iterations from the root with the whole path to
     * search. Unless it ends early, it ends with the loop's exit state: a handler found at the
     * end of a trail spelling the path, and the first node that matched the whole path likewise.
     */
    method Search(verb: string, path: string, buf: array<string>, fuel: nat)
      returns (st: Walk, early: Option<FindOutcome>, ghost tr: Trail, ghost btr: Trail)
      requires Valid()
      modifies buf
      ensures early.Some? ==> early.value == NoRoute || early.value == Panicked || early.value == OutOfFuel
      ensures early.None? ==> st.done && WalkOk(nodes, verb, st)
      ensures early.None? && KindsOk(nodes) ==> Tracked(nodes, path, buf[..], st, tr, btr)
    {
      st := Walk(0, false, None, None, path, 0, 0, TopBlock, false);
      tr := Trail([0], []);
      btr := tr;
      early := None;
      var steps := fuel;
      while !st.done
        invariant early.None? && WalkOk(nodes, verb, st)
        invariant KindsOk(nodes) ==> Tracked(nodes, path, buf[..], st, tr, btr)
        decreases steps
      {
        if steps == 0 {
          return st, Some(OutOfFuel), tr, btr;
        }
        steps := steps - 1;
        ghost var vals := buf[..];
        ghost var before := st;
        st, early := Step(verb, path, buf, st);
        if KindsOk(nodes) {
          tr, btr := StepTracked(nodes, verb, path, vals, before, tr, btr);
        }
        if early.Some? {
          return;
        }
      }
    }

    /** One iteration of `Find`'s loop, from the block `st.block`. */
    method Step(verb: string, path: string, buf: array<string>, st: Walk) returns (st': Walk, early: Option<FindOutcome>)
      requires Valid() && WalkOk(nodes, verb, st) && !st.done
      modifies buf
      ensures (st', early, buf[..]) == AfterStep(nodes, verb, path, st, old(buf[..]))
    {
      if st.block == TopBlock {
        st', early := MatchNode(verb, st);
        if early.Some? || st'.done || st'.block != TopBlock {
          return;
        }
      } else {
        st' := st;
      }
      st', early := DescendStep(verb, path, buf, st');
    }

    /** The start of an iteration of `Find`'s loop, which matches the current node's prefix. */
    method MatchNode(verb: string, st: Walk) returns (st': Walk, early: Option<FindOutcome>)
      requires Valid() && WalkOk(nodes, verb, st) && !st.done && st.block == TopBlock
      ensures (st', early) == AfterMatch(nodes, verb, st)
    {
      var node := nodes[st.cur];
      var prefixLen := MatchedPrefix(node, st.search);
      if prefixLen.None? {
        // Backtracking from a static node goes on with its parent's param block
        if node.parent.None? {
          return st, Some(NoRoute);
        }
        return st.(cur := node.parent.value, block := ParamBlock), None;
      }
      var lcpLen := prefixLen.value;
      st' := st.(search := st.search[lcpLen..], searchIndex := st.searchIndex + lcpLen);
      early := None;
      if st'.search == [] && node.isHandler {
        if st'.best.None? {
          st' := st'.(best := Some(st.cur));
        }
        var hh := FindHandler(node.methodHandler, verb);
        if hh.Some? {
          st' := st'.(matched := hh, done := true);
        }
      }
    }

    /**
     * The prefix test at the start of an iteration: the length of a static node's prefix when
     * the search starts with it (0 for other nodes), found as the longest common prefix.
     */
    static method MatchedPrefix(node: Node, search: string) returns (k: Option<nat>)
      ensures k.Some? <==> PrefixMatches(node, search)
      ensures k.Some? ==> k.value == if node.kind == Static then |node.prefix| else 0
    {
      if node.kind != Static {
        return Some(0);
      }
      var lcpLen := CommonPrefixLength(search, node.prefix);
      if lcpLen != |node.prefix| {
        assert lcpLen < |search| ==> search[lcpLen] != node.prefix[lcpLen];
        return None;
      }
      return Some(lcpLen);
    }

    /** The static, param and any blocks of `Find`'s loop, then the backtracking when none applies. */
    method DescendStep(verb: string, path: string, buf: array<string>, st: Walk) returns (st': Walk, early: Option<FindOutcome>)
      requires Valid() && WalkOk(nodes, verb, st) && !st.done
      modifies buf
      ensures (st', early, buf[..]) == AfterDescent(nodes, verb, path, st, old(buf[..]))
    {
      var node := nodes[st.cur];
      assert NodeOk(node, st.cur, |nodes|);
      match Descend(nodes, node, st.search, st.block) {
        case ToStatic(c) =>
          return st.(cur := c, block := TopBlock), None;
        case ToParam(c) =>
          st', early := EnterParamChild(buf, st, c);
        case ToAny(c) =>
          st', early := EnterAnyChild(verb, buf, st, c);
          if early.None? && !st'.done {
            st', early := Backtrack(path, buf, st');
          }
        case Retreat =>
          st', early := Backtrack(path, buf, st);
      }
    }

    /** The param block, entering the param child `c`. */
    method EnterParamChild(buf: array<string>, st: Walk, c: nat) returns (st': Walk, early: Option<FindOutcome>)
      requires Valid() && c < |nodes|
      modifies buf
      ensures (st', early, buf[..]) == AfterParam(nodes, st, old(buf[..]), c)
    {
      var i: nat;
      if nodes[c].isLeaf {
        // A param leaf takes the whole rest of the search
        i := |st.search|;
      } else {
        i := ParamValueLength(st.search);
      }
      var ok := Store(buf, st.paramIndex, st.search[..i]);
      if !ok {
        return st, Some(Panicked);
      }
      return st.(cur := c, paramIndex := st.paramIndex + 1, search := st.search[i..],
        searchIndex := st.searchIndex + i, block := TopBlock), None;
    }

    /** The any block, entering the any child `c`. */
    method EnterAnyChild(verb: string, buf: array<string>, st: Walk, c: nat) returns (st': Walk, early: Option<FindOutcome>)
      requires Valid() && WalkOk(nodes, verb, st) && !st.done && c < |nodes|
      modifies buf
      ensures (st', early, buf[..]) == AfterAny(nodes, verb, st, old(buf[..]), c)
    {
      var ok := Store(buf, |nodes[c].pnames| - 1, st.search);
      if !ok {
        return st, Some(Panicked);
      }
      early := None;
      st' := st.(cur := c, paramIndex := st.paramIndex + 1, searchIndex := st.searchIndex + |st.search|, search := []);
      if st'.best.None? {
        st' := st'.(best := Some(c));
      }
      var hh := FindHandler(nodes[c].methodHandler, verb);
      if hh.Some? {
        st' := st'.(matched := hh, done := true);
      }
    }

    /** `backtrackToNextNodeKind` from the any block. */
    method Backtrack(path: string, buf: array<string>, st: Walk) returns (st': Walk, early: Option<FindOutcome>)
      requires Valid() && st.cur < |nodes| && !st.done && !st.curNil
      modifies buf
      ensures (st', early, buf[..]) == AfterBacktrack(nodes, path, st, old(buf[..]))
    {
      var prev := nodes[st.cur];
      assert NodeOk(prev, st.cur, |nodes|);
      var ok, si, pi := Restore(prev, buf, st.searchIndex, st.paramIndex);
      if !ok || !(0 <= si <= |path|) {
        return st, Some(Panicked);
      }
      early := None;
      st' := st.(searchIndex := si, paramIndex := pi, search := path[si..]);
      if prev.parent.None? {
        st' := st'.(curNil := true, done := true);
      } else {
        st' := st'.(cur := prev.parent.value);
        match NextKind(prev.kind) {
          case Param => st' := st'.(block := ParamBlock);
          case Any => st' := st'.(block := AnyBlock);
          case Static => st' := st'.(done := true);
        }
      }
    }
  }
}
