/** The character trie of tspell (`TrieBase`, with its appenders and the
    string wrappers built over it).  The source keeps a first-child /
    next-sibling tree of heap nodes with parent back-links; here the nodes
    live in an arena `nodes` and every link is an index into it (NIL for
    NULL).  New nodes are always appended to the arena, so every child and
    next-sibling index is larger than the index of the node holding it and
    every parent index is smaller. */
module Trie {

  /** NULL, for the index-valued links. */
  const NIL: int := -1

  /** One trie node: the source's parent, next and child pointers as arena
      indices, the code unit `ch`, and the terminal flag `data`. */
  datatype Node<Char> = Node(parent: int, next: int, child: int, ch: Char, data: bool)

  /** What the source's `Node** current` points at: the root pointer, or the
      `next` or `child` field of node `k`. */
  datatype Slot = RootSlot | NextOf(k: nat) | ChildOf(k: nat)

  // -------------------------------------------------------------------------
  // Shape of an arena

  /** Parents come before, siblings and children after. */
  ghost predicate Ordered<Char>(ns: seq<Node<Char>>) {
    forall i :: 0 <= i < |ns| ==>
      && (ns[i].parent == NIL || 0 <= ns[i].parent < i)
      && (ns[i].next == NIL || i < ns[i].next < |ns|)
      && (ns[i].child == NIL || i < ns[i].child < |ns|)
  }

  ghost predicate IsLink<Char>(ns: seq<Node<Char>>, p: int) {
    p == NIL || 0 <= p < |ns|
  }

  /** The first node of the sibling chain below `p` (below the root for NIL). */
  function Head<Char>(ns: seq<Node<Char>>, root: int, p: int): int
    requires p == NIL || 0 <= p < |ns|
  {
    if p == NIL then root else ns[p].child
  }

  /** Node `i` is reached from `start` by following `next` links. */
  ghost predicate InChain<Char>(ns: seq<Node<Char>>, start: int, i: int)
    decreases |ns| - start
  {
    0 <= start <= i < |ns| &&
    (start == i || (start < ns[start].next <= i && InChain(ns, ns[start].next, i)))
  }

  /** The sibling and the first child of node `i` point back to the right parent. */
  ghost predicate LinksAgree<Char>(ns: seq<Node<Char>>, i: int)
    requires Ordered(ns) && 0 <= i < |ns|
  {
    && (ns[i].next == NIL || ns[ns[i].next].parent == ns[i].parent)
    && (ns[i].child == NIL || ns[ns[i].child].parent == i)
  }

  /** The parent link of every node agrees with the chain that holds it. */
  ghost predicate Consistent<Char>(ns: seq<Node<Char>>, root: int)
    requires Ordered(ns)
  {
    && (root == NIL || (0 <= root < |ns| && ns[root].parent == NIL))
    && (forall i :: 0 <= i < |ns| ==> LinksAgree(ns, i))
  }

  /** Siblings carry distinct characters. */
  ghost predicate Distinct<Char>(ns: seq<Node<Char>>) {
    forall i, j :: 0 <= i < |ns| && 0 <= j < |ns| ==> KeyUnique(ns, i, j)
  }

  /** Nodes `i` and `j` are the same if they have the same parent and character. */
  ghost predicate KeyUnique<Char>(ns: seq<Node<Char>>, i: int, j: int)
    requires 0 <= i < |ns| && 0 <= j < |ns|
  {
    ns[i].parent == ns[j].parent && ns[i].ch == ns[j].ch ==> i == j
  }

  /** Node `i` sits on the child chain of its parent. */
  ghost predicate OnParentChain<Char>(ns: seq<Node<Char>>, root: int, i: int)
    requires Ordered(ns) && 0 <= i < |ns|
  {
    InChain(ns, Head(ns, root, ns[i].parent), i)
  }

  /** Every node sits on the child chain of its parent. */
  ghost predicate Reachable<Char>(ns: seq<Node<Char>>, root: int)
    requires Ordered(ns)
  {
    forall i :: 0 <= i < |ns| ==> OnParentChain(ns, root, i)
  }

  ghost predicate Shaped<Char>(ns: seq<Node<Char>>, root: int) {
    && Ordered(ns)
    && IsLink(ns, root)
    && Consistent(ns, root)
    && Distinct(ns)
    && Reachable(ns, root)
  }

  /** A well-shaped arena holding exactly the strings `C`. */
  ghost predicate TrieInv<Char>(ns: seq<Node<Char>>, root: int, C: set<seq<Char>>) {
    Shaped(ns, root) && C == ContentsOf(ns)
  }

  /** The string spelled from the root down to node `i`. */
  ghost function PathTo<Char>(ns: seq<Node<Char>>, i: int): seq<Char>
    requires Ordered(ns) && 0 <= i < |ns|
    decreases i
  {
    if ns[i].parent == NIL then [ns[i].ch] else PathTo(ns, ns[i].parent) + [ns[i].ch]
  }

  /** The string spelled down to `p`, empty for NIL. */
  ghost function PathP<Char>(ns: seq<Node<Char>>, p: int): seq<Char>
    requires Ordered(ns) && IsLink(ns, p)
  {
    if p == NIL then [] else PathTo(ns, p)
  }

  /** The strings a trie holds: the paths to its terminal nodes. */
  ghost function ContentsOf<Char>(ns: seq<Node<Char>>): set<seq<Char>>
    requires Ordered(ns)
  {
    set i | 0 <= i < |ns| && ns[i].data :: PathTo(ns, i)
  }

  // -------------------------------------------------------------------------
  // Approximate matching

  /** `w` is reachable from the query `q` with budget `d` by the four moves
      of the search: drop a query unit ("remove", costs 1), consume equal
      units ("normal", free), consume different units ("change", costs 1), or
      consume a unit of `w` alone ("add", costs 1). */
  predicate Within<Char(==)>(w: seq<Char>, q: seq<Char>, d: int)
    decreases |w| + |q|
  {
    || (w == [] && q == [])
    || (|q| > 0 && d > 0 && Within(w, q[1..], d - 1))
    || (|w| > 0 && |q| > 0 && w[0] == q[0] && Within(w[1..], q[1..], d))
    || (|w| > 0 && |q| > 0 && d > 0 && w[0] != q[0] && Within(w[1..], q[1..], d - 1))
    || (|w| > 0 && d > 0 && Within(w[1..], q, d - 1))
  }

  function Min3(a: nat, b: nat, c: nat): nat {
    if a <= b && a <= c then a else if b <= c then b else c
  }

  /** Levenshtein distance, as an independent reference for `Within`. */
  function EditDistance<Char(==)>(a: seq<Char>, b: seq<Char>): nat
    decreases |a| + |b|
  {
    if |a| == 0 then |b|
    else if |b| == 0 then |a|
    else Min3(EditDistance(a[1..], b) + 1,
              EditDistance(a, b[1..]) + 1,
              EditDistance(a[1..], b[1..]) + (if a[0] == b[0] then 0 else 1))
  }

  /** The strings of `C` that extend `P` by a `w` within budget `d` of `q`. */
  ghost function Approx<Char>(C: set<seq<Char>>, P: seq<Char>, q: seq<Char>, d: int): set<seq<Char>> {
    set s | s in C && |P| <= |s| && s[..|P|] == P && Within(s[|P|..], q, d)
  }

  /** The members of `Approx(C, P, q, d)` longer than `P` whose next unit is in `X`. */
  ghost function LongerPart<Char>(C: set<seq<Char>>, P: seq<Char>, q: seq<Char>, d: int, X: set<Char>): set<seq<Char>> {
    set s | s in Approx(C, P, q, d) && |s| > |P| && s[|P|] in X
  }

  // -------------------------------------------------------------------------
  // The trie and its operations

  /** Collects the strings of the nodes it is given (`StringSetAppender`);
      `found` is the caller's output set.  The UTF-16 wrapper uses it too,
      in place of `UnicodeStringSetAppender`, whose reversal is modelled
      separately by `UniTrie.IcuSetAppender`. */
  class SetAppender<Char(==)> {
    var found: set<seq<Char>>

    constructor (init: set<seq<Char>>)
      ensures found == init
    {
      found := init;
    }

    /** Walks the parent links up from `node`, then reverses what it collected. */
    method Append(ns: seq<Node<Char>>, node: int)
      requires Ordered(ns) && 0 <= node < |ns|
      modifies this
      ensures found == old(found) + {PathTo(ns, node)}
    {
      var str := WalkedUp(ns, node);
      str := Reversed(str);
      found := found + {str};
    }
  }

  /** The units met walking the parent links up from `node` to the root,
      the loop both appenders share: the node's path, last unit first. */
  method WalkedUp<Char>(ns: seq<Node<Char>>, node: int) returns (str: seq<Char>)
    requires Ordered(ns) && 0 <= node < |ns|
    ensures Reversed(str) == PathTo(ns, node)
  {
    str := [];
    var cur := node;
    while cur != NIL
      invariant IsLink(ns, cur)
      invariant PathTo(ns, node) == PathP(ns, cur) + Reversed(str)
      decreases cur + 1
    {
      WalkUp(ns, node, cur, str);
      str := str + [ns[cur].ch];
      cur := ns[cur].parent;
    }
  }

  /** One step of the walk of `Append` up the parent links. */
  lemma WalkUp<Char>(ns: seq<Node<Char>>, node: int, cur: int, str: seq<Char>)
    requires Ordered(ns) && 0 <= node < |ns| && 0 <= cur < |ns|
    requires PathTo(ns, node) == PathP(ns, cur) + Reversed(str)
    ensures PathTo(ns, node) == PathP(ns, ns[cur].parent) + Reversed(str + [ns[cur].ch])
  {
    PathStep(ns, cur);
    ReversedSnoc(str, ns[cur].ch);
    SeqAssoc(PathP(ns, ns[cur].parent), [ns[cur].ch], Reversed(str));
  }

  function Reversed<T>(s: seq<T>): (r: seq<T>)
    ensures |r| == |s|
  {
    if s == [] then [] else [s[|s| - 1]] + Reversed(s[..|s| - 1])
  }

  lemma ReversedSnoc<T>(s: seq<T>, x: T)
    ensures Reversed(s + [x]) == [x] + Reversed(s)
  {
    assert (s + [x])[..|s|] == s;
  }

  /** `TrieBase<Char, Appender>`; `StringTrie`, `WStringTrie` and
      `UnicodeTrie` are this class at `char`, `wchar_t` and UTF-16 units. */
  class TrieBase<Char(==)> {
    var nodes: seq<Node<Char>>
    var root: int
    /** The set of strings inserted so far. */
    ghost var Contents: set<seq<Char>>

    ghost predicate Valid()
      reads this
    {
      TrieInv(nodes, root, Contents)
    }

    constructor ()
      ensures Valid() && Contents == {}
    {
      nodes := [];
      root := NIL;
      Contents := {};
    }

    /** Public `Insert`: an empty sequence is ignored. */
    method Insert(s: seq<Char>)
      requires Valid()
      modifies this
      ensures Valid()
      ensures Contents == old(Contents) + (if |s| > 0 then {s} else {})
      ensures |nodes| <= |old(nodes)| + |s|
      ensures s in old(Contents) ==> nodes == old(nodes) && root == old(root)
      ensures |s| == 0 ==> nodes == old(nodes) && root == old(root)
    {
      if |s| > 0 {
        InsertAt(NIL, RootSlot, s);
        assert PathP(old(nodes), NIL) + s == s;
      }
    }

    /** The private recursive `Insert(parent, start, string, length)`. */
    method InsertAt(parent: int, start: Slot, s: seq<Char>)
      requires Valid() && |s| > 0
      requires IsLink(nodes, parent)
      requires start == (if parent == NIL then RootSlot else ChildOf(parent))
      modifies this
      ensures Valid()
      ensures Extends(old(nodes), nodes)
      ensures Contents == old(Contents) + {PathP(old(nodes), parent) + s}
      ensures |nodes| <= |old(nodes)| + |s|
      ensures PathP(old(nodes), parent) + s in old(Contents) ==> nodes == old(nodes) && root == old(root)
      decreases |s|
    {
      ghost var ns0, root0 := nodes, root;
      ghost var P := PathP(nodes, parent);
      var current := FindSlot(parent, start, s[0]);
      var c := LinkAt(nodes, root, current);
      if c == NIL {
        NoChildNoPath(nodes, root, parent, s);
        c := NewNode(parent, current, s[0]);
      } else {
        ChainParent(nodes, root, parent, c);
        PathStep(nodes, c);
      }
      ghost var mid := nodes;
      if |s| == 1 {
        assert P + s == PathTo(nodes, c);
        SetData(c, P + s);
        ExtendsTrans(ns0, mid, nodes);
      } else {
        InsertAt(c, ChildOf(c), s[1..]);
        ExtendsTrans(ns0, mid, nodes);
        ConsTail(P, s);
      }
    }

    /** The search of the children of `parent` for character `x`: the slot
        holding the child with that character, or else the NULL link at the
        end of the chain. */
    method FindSlot(parent: int, start: Slot, x: Char) returns (current: Slot)
      requires Valid() && IsLink(nodes, parent)
      requires start == (if parent == NIL then RootSlot else ChildOf(parent))
      ensures current == start || (current.NextOf? && InChain(nodes, Head(nodes, root, parent), current.k))
      ensures LinkAt(nodes, root, current) == NIL ==> forall j :: InChain(nodes, Head(nodes, root, parent), j) ==> nodes[j].ch != x
      ensures LinkAt(nodes, root, current) != NIL ==>
        InChain(nodes, Head(nodes, root, parent), LinkAt(nodes, root, current)) && nodes[LinkAt(nodes, root, current)].ch == x
    {
      ghost var head := Head(nodes, root, parent);
      current := start;
      ghost var seen: set<Char> := {};
      while LinkAt(nodes, root, current) != NIL && nodes[LinkAt(nodes, root, current)].ch != x
        invariant x !in seen
        invariant current == start || (current.NextOf? && InChain(nodes, head, current.k))
        invariant LinkAt(nodes, root, current) == NIL || InChain(nodes, head, LinkAt(nodes, root, current))
        invariant forall j :: InChain(nodes, head, j) && !InChain(nodes, LinkAt(nodes, root, current), j) ==> nodes[j].ch in seen
        decreases if LinkAt(nodes, root, current) == NIL then 0 else |nodes| - LinkAt(nodes, root, current)
      {
        var v := LinkAt(nodes, root, current);
        ChainAdvance(nodes, root, parent, v, seen);
        seen := seen + {nodes[v].ch};
        current := NextOf(v);
      }
    }

    /** `*current = new Node(parent, x)`, returning the new node. */
    method NewNode(parent: int, current: Slot, x: Char) returns (c: int)
      requires Valid() && CanAttach(nodes, root, parent, current, x)
      modifies this
      ensures Valid() && Contents == old(Contents)
      ensures (nodes, root) == Attach(old(nodes), old(root), current, parent, x)
      ensures c == |old(nodes)| && |nodes| == |old(nodes)| + 1 && Extends(old(nodes), nodes)
      ensures nodes[c].parent == parent && nodes[c].ch == x
      ensures PathTo(nodes, c) == PathP(old(nodes), parent) + [x]
    {
      c := |nodes|;
      AttachValid(nodes, root, Contents, parent, current, x);
      nodes, root := Attach(nodes, root, current, parent, x).0, Attach(nodes, root, current, parent, x).1;
    }

    /** `(*current)->data = true`: node `c`, which spells `w`, becomes terminal. */
    method SetData(c: int, ghost w: seq<Char>)
      requires Valid() && 0 <= c < |nodes| && PathTo(nodes, c) == w
      modifies this
      ensures Valid() && root == old(root)
      ensures nodes == old(nodes)[c := old(nodes)[c].(data := true)]
      ensures Extends(old(nodes), nodes)
      ensures Contents == old(Contents) + {w}
      ensures w in old(Contents) ==> nodes == old(nodes)
    {
      MarkTerminal(nodes, root, Contents, c, w);
      nodes := nodes[c := nodes[c].(data := true)];
      Contents := Contents + {w};
    }

    /** Public `FindExact`: false on the empty string and on an empty trie. */
    method FindExact(s: seq<Char>) returns (found: bool)
      requires Valid()
      ensures found <==> s in Contents
    {
      if |s| == 0 || root == NIL {
        EmptyNotContained(nodes, root, s);
        return false;
      }
      found := FindExactAt(root, s, NIL);
      assert PathP(nodes, NIL) + s == s;
    }

    /** The private recursive `FindExact(start, string, length)`; `parent` is
        the node whose child chain starts at `start`. */
    method FindExactAt(start: int, s: seq<Char>, ghost parent: int) returns (found: bool)
      requires Valid() && |s| > 0
      requires IsLink(nodes, parent) && start == Head(nodes, root, parent)
      ensures found <==> PathP(nodes, parent) + s in Contents
      decreases |s|
    {
      var current := start;
      ghost var seen: set<Char> := {};
      while current != NIL && nodes[current].ch != s[0]
        invariant s[0] !in seen
        invariant current == NIL || InChain(nodes, start, current)
        invariant forall j :: InChain(nodes, start, j) && !InChain(nodes, current, j) ==> nodes[j].ch in seen
        decreases if current == NIL then 0 else |nodes| - current
      {
        ChainAdvance(nodes, root, parent, current, seen);
        seen := seen + {nodes[current].ch};
        current := nodes[current].next;
      }
      if current == NIL {
        NoChildNoPath(nodes, root, parent, s);
        return false;
      }
      ChainParent(nodes, root, parent, current);
      if |s| == 1 {
        found := nodes[current].data;
        TerminalPath(nodes, root, current);
        assert PathP(nodes, parent) + s == PathTo(nodes, current);
      } else {
        found := FindExactAt(nodes[current].child, s[1..], current);
        assert PathP(nodes, parent) + s == PathTo(nodes, current) + s[1..];
      }
    }

    /** Public `FindApprox` as seen through a string wrapper: adds to `out`
        every stored string within budget `distance` of `s`. */
    method FindApprox(s: seq<Char>, distance: int, out: set<seq<Char>>) returns (result: set<seq<Char>>)
      requires Valid()
      ensures result == out + (set w | w in Contents && Within(w, s, distance))
    {
      var appender := new SetAppender(out);
      if root != NIL {
        FindApproxAt(NIL, root, s, distance, appender);
      } else {
        EmptyContents(nodes, root);
      }
      result := appender.found;
      ApproxFromRoot(Contents, s, distance);
    }

    /** The private recursive `FindApprox(last, current, string, length,
        distance, appender)`: `current` heads the child chain of `last`. */
    method FindApproxAt(last: int, current: int, q: seq<Char>, d: int, appender: SetAppender<Char>)
      requires Valid()
      requires IsLink(nodes, last) && current == Head(nodes, root, last)
      modifies appender
      ensures appender.found == old(appender.found) + Approx(Contents, PathP(nodes, last), q, d)
      decreases |q| + (if d > 0 then d else 0), 3
    {
      ghost var B, C, P := appender.found, Contents, PathP(nodes, last);
      FindApproxStart(last, current, q, d, appender, C, P);
      /* no move left */
      if d == 0 && |q| == 0 {
        NoMoveLeft(B, C, P, q, d);
        return;
      }
      VisitChildren(last, current, q, d, appender, B, C, P);
    }

    /** The remove move and the exact match of `FindApprox`. */
    method FindApproxStart(last: int, current: int, q: seq<Char>, d: int, appender: SetAppender<Char>, ghost C: set<seq<Char>>, ghost P: seq<Char>)
      requires Valid() && IsLink(nodes, last) && current == Head(nodes, root, last)
      requires C == Contents && P == PathP(nodes, last)
      modifies appender
      ensures Valid() && C == Contents && P == PathP(nodes, last)
      ensures appender.found == StartAcc(old(appender.found), C, P, q, d)
      decreases |q| + (if d > 0 then d else 0), 2
    {
      /* remove a character of the query */
      if |q| > 0 && d > 0 {
        FindApproxAt(last, current, q[1..], d - 1, appender);
      }
      /* match */
      MatchPart(nodes, root, last, q);
      if |q| == 0 && last != NIL && nodes[last].data {
        appender.Append(nodes, last);
      }
    }

    /** The loop over the children of `last` in `FindApprox`, after the
        remove move and the match have given `StartAcc(B, C, P, q, d)`. */
    method VisitChildren(last: int, current: int, q: seq<Char>, d: int, appender: SetAppender<Char>,
                         ghost B: set<seq<Char>>, ghost C: set<seq<Char>>, ghost P: seq<Char>)
      requires Valid() && IsLink(nodes, last) && current == Head(nodes, root, last)
      requires C == Contents && P == PathP(nodes, last)
      requires appender.found == StartAcc(B, C, P, q, d)
      modifies appender
      ensures appender.found == B + Approx(C, P, q, d)
      decreases |q| + (if d > 0 then d else 0), 2
    {
      ghost var base := appender.found;
      var cur := current;
      ghost var seen: set<Char> := {};
      StartLonger(B, C, P, q, d);
      while cur != NIL
        invariant cur == NIL || InChain(nodes, current, cur)
        invariant forall j :: InChain(nodes, current, j) && !InChain(nodes, cur, j) ==> nodes[j].ch in seen
        invariant appender.found == base + LongerPart(C, P, q, d, seen)
        decreases if cur == NIL then 0 else |nodes| - cur
      {
        ChainAdvance(nodes, root, last, cur, seen);
        ghost var x := nodes[cur].ch;
        VisitChild(cur, q, d, appender);
        ChildStep(B, C, P, q, d, seen, x);
        seen := seen + {x};
        cur := nodes[cur].next;
      }
      AllChildrenSeen(nodes, root, last, q, d, seen);
      SearchComplete(B, C, P, q, d, seen);
    }

    /** The body of the loop over the children in `FindApprox`: the normal,
        change and add moves through child `cur`. */
    method VisitChild(cur: int, q: seq<Char>, d: int, appender: SetAppender<Char>)
      requires Valid() && 0 <= cur < |nodes|
      modifies appender
      ensures appender.found ==
        ChildAcc(old(appender.found), Contents, PathP(nodes, nodes[cur].parent), q, d, nodes[cur].ch)
      decreases |q| + (if d > 0 then d else 0), 1
    {
      PathStep(nodes, cur);
      ghost var C := Contents;
      ghost var P' := PathP(nodes, cur);
      assert P' == PathP(nodes, nodes[cur].parent) + [nodes[cur].ch];
      VisitNormal(cur, q, d, appender, C, P');
      VisitChange(cur, q, d, appender, C, P');
      VisitAdd(cur, q, d, appender, C, P');
    }

    /** The normal path: the child spells the next character of the query.
        `P` is the child's path and `C` the contents. */
    method VisitNormal(cur: int, q: seq<Char>, d: int, appender: SetAppender<Char>, ghost C: set<seq<Char>>, ghost P: seq<Char>)
      requires Valid() && 0 <= cur < |nodes| && C == Contents && P == PathP(nodes, cur)
      modifies appender
      ensures Valid() && C == Contents && P == PathP(nodes, cur)
      ensures appender.found == old(appender.found) + if |q| > 0 && nodes[cur].ch == q[0] then Approx(C, P, q[1..], d) else {}
      decreases |q| + (if d > 0 then d else 0), 0
    {
      if |q| > 0 && nodes[cur].ch == q[0] {
        assert nodes[cur].child == NIL || LinksAgree(nodes, cur);
        FindApproxAt(cur, nodes[cur].child, q[1..], d, appender);
      }
    }

    /** The change move: the child's character stands for a different one. */
    method VisitChange(cur: int, q: seq<Char>, d: int, appender: SetAppender<Char>, ghost C: set<seq<Char>>, ghost P: seq<Char>)
      requires Valid() && 0 <= cur < |nodes| && C == Contents && P == PathP(nodes, cur)
      modifies appender
      ensures Valid() && C == Contents && P == PathP(nodes, cur)
      ensures appender.found == old(appender.found) + if d > 0 && |q| > 0 && nodes[cur].ch != q[0] then Approx(C, P, q[1..], d - 1) else {}
      decreases |q| + (if d > 0 then d else 0), 0
    {
      if d > 0 && |q| > 0 && nodes[cur].ch != q[0] {
        assert nodes[cur].child == NIL || LinksAgree(nodes, cur);
        FindApproxAt(cur, nodes[cur].child, q[1..], d - 1, appender);
      }
    }

    /** The add move: the child's character is one the query lacks. */
    method VisitAdd(cur: int, q: seq<Char>, d: int, appender: SetAppender<Char>, ghost C: set<seq<Char>>, ghost P: seq<Char>)
      requires Valid() && 0 <= cur < |nodes| && C == Contents && P == PathP(nodes, cur)
      modifies appender
      ensures Valid() && C == Contents && P == PathP(nodes, cur)
      ensures appender.found == old(appender.found) + if d > 0 then Approx(C, P, q, d - 1) else {}
      decreases |q| + (if d > 0 then d else 0), 0
    {
      if d > 0 {
        FindApproxAt(cur, nodes[cur].child, q, d - 1, appender);
      }
    }
  }

  // -------------------------------------------------------------------------
  // Construction of a new node

  /** The link the slot `current` denotes. */
  function LinkAt<Char>(ns: seq<Node<Char>>, root: int, current: Slot): int {
    match current
    case RootSlot => root
    case NextOf(k) => if k < |ns| then ns[k].next else NIL
    case ChildOf(k) => if k < |ns| then ns[k].child else NIL
  }

  /** `*current = new Node(parent, x)`: the fresh node goes to the end of
      the arena and the NULL link that `current` denotes now points to it. */
  function Attach<Char>(ns: seq<Node<Char>>, root: int, current: Slot, parent: int, x: Char): (seq<Node<Char>>, int)
  {
    var leaf := Node(parent, NIL, NIL, x, false);
    match current
    case RootSlot => (ns + [leaf], |ns|)
    case NextOf(k) => if k < |ns| then (ns[k := ns[k].(next := |ns|)] + [leaf], root) else (ns + [leaf], root)
    case ChildOf(k) => if k < |ns| then (ns[k := ns[k].(child := |ns|)] + [leaf], root) else (ns + [leaf], root)
  }

  /** The arena `b` keeps the parents and characters of the nodes of `a`. */
  ghost predicate Extends<Char>(a: seq<Node<Char>>, b: seq<Node<Char>>) {
    |a| <= |b| && forall i :: 0 <= i < |a| ==> KeptAt(a, b, i)
  }

  ghost predicate KeptAt<Char>(a: seq<Node<Char>>, b: seq<Node<Char>>, i: int)
    requires 0 <= i < |a| <= |b|
  {
    b[i].parent == a[i].parent && b[i].ch == a[i].ch
  }

  /** The arena `b` keeps every non-NULL `next` link of `a`. */
  ghost predicate NextGrows<Char>(a: seq<Node<Char>>, b: seq<Node<Char>>) {
    |a| <= |b| && forall i :: 0 <= i < |a| && a[i].next != NIL ==> b[i].next == a[i].next
  }

  lemma ExtendsTrans<Char>(a: seq<Node<Char>>, b: seq<Node<Char>>, c: seq<Node<Char>>)
    requires Extends(a, b) && Extends(b, c)
    ensures Extends(a, c)
  {
    forall i | 0 <= i < |a|
      ensures KeptAt(a, c, i)
    {
      assert KeptAt(a, b, i) && KeptAt(b, c, i);
    }
  }

  lemma {:induction false} PathToUnchanged<Char>(a: seq<Node<Char>>, b: seq<Node<Char>>, i: int)
    requires Ordered(a) && Ordered(b) && Extends(a, b) && 0 <= i < |a|
    ensures PathTo(b, i) == PathTo(a, i)
    decreases i
  {
    assert KeptAt(a, b, i);
    if a[i].parent != NIL {
      PathToUnchanged(a, b, a[i].parent);
    }
  }

  lemma PathUnchanged<Char>(a: seq<Node<Char>>, b: seq<Node<Char>>, p: int)
    requires Ordered(a) && Ordered(b) && Extends(a, b) && IsLink(a, p)
    ensures IsLink(b, p) && PathP(b, p) == PathP(a, p)
  {
    if p != NIL {
      PathToUnchanged(a, b, p);
    }
  }

  lemma {:induction false} InChainGrows<Char>(a: seq<Node<Char>>, b: seq<Node<Char>>, s: int, i: int)
    requires NextGrows(a, b) && InChain(a, s, i)
    ensures InChain(b, s, i)
    decreases |a| - s
  {
    if s != i {
      InChainGrows(a, b, a[s].next, i);
    }
  }

  lemma {:induction false} InChainTrans<Char>(ns: seq<Node<Char>>, a: int, k: int, n: int)
    requires InChain(ns, a, k) && InChain(ns, k, n)
    ensures InChain(ns, a, n)
    decreases |ns| - a
  {
    if a != k {
      InChainTrans(ns, ns[a].next, k, n);
    }
  }

  /** Every node of a chain has the parent of the chain's first node. */
  lemma {:induction false} ChainSameParent<Char>(ns: seq<Node<Char>>, root: int, a: int, j: int)
    requires Ordered(ns) && Consistent(ns, root) && InChain(ns, a, j)
    ensures ns[j].parent == ns[a].parent
    decreases |ns| - a
  {
    if a != j {
      assert LinksAgree(ns, a);
      ChainSameParent(ns, root, ns[a].next, j);
    }
  }

  /** Moving along the child chain of `p` past `cur` adds the character of
      `cur` to the characters passed. */
  lemma ChainAdvance<Char>(ns: seq<Node<Char>>, root: int, p: int, cur: int, seen: set<Char>)
    requires Shaped(ns, root) && IsLink(ns, p) && InChain(ns, Head(ns, root, p), cur)
    requires forall j :: InChain(ns, Head(ns, root, p), j) && !InChain(ns, cur, j) ==> ns[j].ch in seen
    ensures ns[cur].parent == p
    ensures ns[cur].next == NIL || InChain(ns, Head(ns, root, p), ns[cur].next)
    ensures forall j :: InChain(ns, Head(ns, root, p), j) && !InChain(ns, ns[cur].next, j) ==> ns[j].ch in seen + {ns[cur].ch}
  {
    ChainParent(ns, root, p, cur);
    if ns[cur].next != NIL {
      InChainTrans(ns, Head(ns, root, p), cur, ns[cur].next);
    }
  }

  /** The child chain of `p` holds only children of `p`. */
  lemma ChainParent<Char>(ns: seq<Node<Char>>, root: int, p: int, j: int)
    requires Shaped(ns, root) && IsLink(ns, p) && InChain(ns, Head(ns, root, p), j)
    ensures 0 <= j < |ns| && ns[j].parent == p
  {
    if p != NIL {
      assert LinksAgree(ns, p);
    }
    ChainSameParent(ns, root, Head(ns, root, p), j);
  }

  /** What `Insert` knows when it attaches a node: `current` is the NULL
      link at the end of the child chain of `parent`, and no node on that
      chain carries `x`. */
  ghost predicate CanAttach<Char>(ns: seq<Node<Char>>, root: int, parent: int, current: Slot, x: Char) {
    && Shaped(ns, root) && IsLink(ns, parent)
    && (current == (if parent == NIL then RootSlot else ChildOf(parent)) ||
        (current.NextOf? && InChain(ns, Head(ns, root, parent), current.k)))
    && LinkAt(ns, root, current) == NIL
    && (forall j :: InChain(ns, Head(ns, root, parent), j) ==> ns[j].ch != x)
  }

  lemma AttachOrdered<Char>(ns: seq<Node<Char>>, root: int, parent: int, current: Slot, x: Char)
    requires CanAttach(ns, root, parent, current, x)
    ensures var (ns', root') := Attach(ns, root, current, parent, x);
      Ordered(ns') && IsLink(ns', root') && NextGrows(ns, ns') && |ns'| == |ns| + 1
    ensures current.NextOf? ==> ns[current.k].parent == parent
  {
    if current.NextOf? {
      ChainParent(ns, root, parent, current.k);
    }
  }

  lemma AttachValid<Char>(ns: seq<Node<Char>>, root: int, C: set<seq<Char>>, parent: int, current: Slot, x: Char)
    requires CanAttach(ns, root, parent, current, x) && C == ContentsOf(ns)
    ensures TrieInv(Attach(ns, root, current, parent, x).0, Attach(ns, root, current, parent, x).1, C)
    ensures var ns' := Attach(ns, root, current, parent, x).0;
      && |ns'| == |ns| + 1
      && Extends(ns, ns')
      && ns'[|ns|].parent == parent && ns'[|ns|].ch == x
      && PathTo(ns', |ns|) == PathP(ns, parent) + [x]
  {
    var (ns', root') := Attach(ns, root, current, parent, x);
    AttachOrdered(ns, root, parent, current, x);
    AttachConsistent(ns, root, parent, current, x);
    AttachDistinct(ns, root, parent, current, x);
    AttachReachable(ns, root, parent, current, x);
    AttachContents(ns, root, parent, current, x);
    PathUnchanged(ns, ns', parent);
  }

  lemma AttachConsistent<Char>(ns: seq<Node<Char>>, root: int, parent: int, current: Slot, x: Char)
    requires CanAttach(ns, root, parent, current, x)
    ensures var (ns', root') := Attach(ns, root, current, parent, x);
      Ordered(ns') && IsLink(ns', root') && Consistent(ns', root')
  {
    var (ns', root') := Attach(ns, root, current, parent, x);
    AttachOrdered(ns, root, parent, current, x);
    forall i | 0 <= i < |ns'|
      ensures LinksAgree(ns', i)
    {
      AttachLinksAgree(ns, root, parent, current, x, i);
    }
  }

  /** One node of the grown arena has its links pointing back right. */
  lemma AttachLinksAgree<Char>(ns: seq<Node<Char>>, root: int, parent: int, current: Slot, x: Char, i: int)
    requires CanAttach(ns, root, parent, current, x)
    requires 0 <= i <= |ns|
    ensures var ns' := Attach(ns, root, current, parent, x).0;
      Ordered(ns') && |ns'| == |ns| + 1 && LinksAgree(ns', i)
  {
    AttachOrdered(ns, root, parent, current, x);
    if i < |ns| {
      assert LinksAgree(ns, i);
    }
  }

  lemma AttachDistinct<Char>(ns: seq<Node<Char>>, root: int, parent: int, current: Slot, x: Char)
    requires CanAttach(ns, root, parent, current, x)
    ensures Distinct(Attach(ns, root, current, parent, x).0)
  {
    var ns' := Attach(ns, root, current, parent, x).0;
    var n := |ns|;
    forall i, j | 0 <= i < |ns'| && 0 <= j < |ns'|
      ensures KeyUnique(ns', i, j)
    {
      if i < n && j < n {
        assert KeyUnique(ns, i, j);
      } else if i < n {
        assert OnParentChain(ns, root, i);
      } else if j < n {
        assert OnParentChain(ns, root, j);
      }
    }
  }

  lemma AttachReachable<Char>(ns: seq<Node<Char>>, root: int, parent: int, current: Slot, x: Char)
    requires CanAttach(ns, root, parent, current, x)
    ensures var (ns', root') := Attach(ns, root, current, parent, x);
      Ordered(ns') && Reachable(ns', root')
  {
    var (ns', root') := Attach(ns, root, current, parent, x);
    AttachOrdered(ns, root, parent, current, x);
    forall i | 0 <= i < |ns'|
      ensures OnParentChain(ns', root', i)
    {
      if i < |ns| {
        AttachKeepsChain(ns, root, parent, current, x, i);
      } else {
        AttachNewOnChain(ns, root, parent, current, x);
      }
    }
  }

  lemma AttachKeepsChain<Char>(ns: seq<Node<Char>>, root: int, parent: int, current: Slot, x: Char, i: int)
    requires CanAttach(ns, root, parent, current, x) && 0 <= i < |ns|
    ensures var (ns', root') := Attach(ns, root, current, parent, x);
      Ordered(ns') && OnParentChain(ns', root', i)
  {
    var (ns', root') := Attach(ns, root, current, parent, x);
    AttachOrdered(ns, root, parent, current, x);
    assert NextGrows(ns, ns');
    var p := ns[i].parent;
    assert OnParentChain(ns, root, i);
    assert Head(ns', root', p) == Head(ns, root, p);
    InChainGrows(ns, ns', Head(ns, root, p), i);
  }

  lemma AttachNewOnChain<Char>(ns: seq<Node<Char>>, root: int, parent: int, current: Slot, x: Char)
    requires CanAttach(ns, root, parent, current, x)
    ensures var (ns', root') := Attach(ns, root, current, parent, x);
      Ordered(ns') && |ns'| == |ns| + 1 && OnParentChain(ns', root', |ns|)
  {
    var (ns', root') := Attach(ns, root, current, parent, x);
    var n := |ns|;
    var head := Head(ns, root, parent);
    AttachOrdered(ns, root, parent, current, x);
    if current.NextOf? {
      var k := current.k;
      assert NextGrows(ns, ns');
      InChainGrows(ns, ns', head, k);
      assert Head(ns', root', parent) == head;
      assert InChain(ns', n, n);
      assert InChain(ns', k, n);
      InChainTrans(ns', head, k, n);
    } else {
      assert Head(ns', root', parent) == n;
    }
  }

  lemma AttachContents<Char>(ns: seq<Node<Char>>, root: int, parent: int, current: Slot, x: Char)
    requires CanAttach(ns, root, parent, current, x)
    ensures var ns' := Attach(ns, root, current, parent, x).0;
      Ordered(ns') && Extends(ns, ns') && ContentsOf(ns') == ContentsOf(ns)
  {
    var ns' := Attach(ns, root, current, parent, x).0;
    var n := |ns|;
    AttachOrdered(ns, root, parent, current, x);
    assert Extends(ns, ns');
    forall i | 0 <= i < n
      ensures PathTo(ns', i) == PathTo(ns, i)
    {
      PathToUnchanged(ns, ns', i);
    }
  }

  /** Setting the terminal flag of node `c` adds its path to the contents
      and changes nothing if it was already set. */
  lemma MarkTerminal<Char>(ns: seq<Node<Char>>, root: int, C: set<seq<Char>>, c: int, w: seq<Char>)
    requires TrieInv(ns, root, C) && 0 <= c < |ns| && PathTo(ns, c) == w
    ensures var ns' := ns[c := ns[c].(data := true)];
      && TrieInv(ns', root, C + {w})
      && Extends(ns, ns')
      && (w in C ==> ns' == ns)
  {
    var ns' := ns[c := ns[c].(data := true)];
    SameShape(ns, ns', root);
    SetDataContents(ns, ns', c);
    PathToUnchanged(ns, ns', c);
    TerminalPath(ns, root, c);
  }

  /** Changing only `data` flags keeps the shape. */
  lemma SameShape<Char>(a: seq<Node<Char>>, b: seq<Node<Char>>, root: int)
    requires Shaped(a, root) && |a| == |b|
    requires forall i :: 0 <= i < |a| ==>
      b[i].parent == a[i].parent && b[i].next == a[i].next && b[i].child == a[i].child && b[i].ch == a[i].ch
    ensures Shaped(b, root) && Extends(a, b)
  {
    assert Ordered(b);
    assert NextGrows(a, b);
    forall i | 0 <= i < |b|
      ensures LinksAgree(b, i)
    {
      assert LinksAgree(a, i);
    }
    forall i, j | 0 <= i < |b| && 0 <= j < |b|
      ensures KeyUnique(b, i, j)
    {
      assert KeyUnique(a, i, j);
    }
    forall i | 0 <= i < |b|
      ensures OnParentChain(b, root, i)
    {
      assert OnParentChain(a, root, i);
      InChainGrows(a, b, Head(a, root, a[i].parent), i);
    }
  }

  lemma SetDataContents<Char>(a: seq<Node<Char>>, b: seq<Node<Char>>, c: int)
    requires Ordered(a) && Ordered(b) && Extends(a, b) && |a| == |b| && 0 <= c < |a|
    requires b == a[c := a[c].(data := true)]
    ensures ContentsOf(b) == ContentsOf(a) + {PathTo(b, c)}
  {
    forall i | 0 <= i < |a|
      ensures PathTo(b, i) == PathTo(a, i)
    {
      PathToUnchanged(a, b, i);
    }
  }

  // -------------------------------------------------------------------------
  // Paths identify nodes

  lemma SeqAssoc<T>(a: seq<T>, b: seq<T>, c: seq<T>)
    ensures a + b + c == a + (b + c)
  {
  }

  lemma ConsTail<T>(P: seq<T>, s: seq<T>)
    requires |s| > 0
    ensures P + [s[0]] + s[1..] == P + s
  {
    assert [s[0]] + s[1..] == s;
  }

  lemma PathStep<Char>(ns: seq<Node<Char>>, i: int)
    requires Ordered(ns) && 0 <= i < |ns|
    ensures PathTo(ns, i) == PathP(ns, ns[i].parent) + [ns[i].ch]
  {
  }

  /** Distinct nodes spell distinct strings. */
  lemma {:induction false} PathInjective<Char>(ns: seq<Node<Char>>, a: int, b: int)
    requires Ordered(ns) && Distinct(ns) && IsLink(ns, a) && IsLink(ns, b)
    requires PathP(ns, a) == PathP(ns, b)
    ensures a == b
    decreases a + b + 2
  {
    if a != NIL && b != NIL {
      PathStep(ns, a);
      PathStep(ns, b);
      var pa, pb := ns[a].parent, ns[b].parent;
      var n := |PathTo(ns, a)|;
      assert PathP(ns, pa) == PathTo(ns, a)[..n - 1];
      assert PathP(ns, pb) == PathTo(ns, b)[..n - 1];
      PathInjective(ns, pa, pb);
      assert ns[a].ch == PathTo(ns, a)[n - 1];
      assert KeyUnique(ns, a, b);
    } else if a != NIL {
      PathStep(ns, a);
    } else if b != NIL {
      PathStep(ns, b);
    }
  }

  /** The terminal nodes spell exactly the contents. */
  lemma TerminalPath<Char>(ns: seq<Node<Char>>, root: int, c: int)
    requires Shaped(ns, root) && 0 <= c < |ns|
    ensures PathTo(ns, c) in ContentsOf(ns) <==> ns[c].data
  {
    if PathTo(ns, c) in ContentsOf(ns) {
      var i :| 0 <= i < |ns| && ns[i].data && PathTo(ns, i) == PathTo(ns, c);
      PathInjective(ns, i, c);
    }
  }

  lemma EmptyNotContained<Char>(ns: seq<Node<Char>>, root: int, s: seq<Char>)
    requires Shaped(ns, root) && (|s| == 0 || root == NIL)
    ensures s !in ContentsOf(ns)
  {
    if s in ContentsOf(ns) {
      var i :| 0 <= i < |ns| && ns[i].data && PathTo(ns, i) == s;
      PathStep(ns, i);
      if root == NIL {
        RootChainEmpty(ns, i);
      }
    }
  }

  lemma EmptyContents<Char>(ns: seq<Node<Char>>, root: int)
    requires Shaped(ns, root) && root == NIL
    ensures ContentsOf(ns) == {}
  {
    forall s | s in ContentsOf(ns) ensures false {
      EmptyNotContained(ns, root, s);
    }
  }

  /** With no root every node would need a parent before it: there is none. */
  lemma {:induction false} RootChainEmpty<Char>(ns: seq<Node<Char>>, i: int)
    requires Shaped(ns, NIL) && 0 <= i < |ns|
    ensures false
    decreases i
  {
    var p := ns[i].parent;
    assert OnParentChain(ns, NIL, i);
    if p != NIL {
      RootChainEmpty(ns, p);
    }
  }

  /** A terminal node spelling `P + w` lies below a child of the node `p`
      that spells `P`, and that child carries `w[0]`. */
  lemma {:induction false} Decompose<Char>(ns: seq<Node<Char>>, root: int, i: int, p: int, w: seq<Char>)
    returns (c: int)
    requires Shaped(ns, root) && 0 <= i < |ns| && IsLink(ns, p)
    requires |w| > 0 && PathTo(ns, i) == PathP(ns, p) + w
    ensures 0 <= c < |ns| && InChain(ns, Head(ns, root, p), c)
    ensures ns[c].parent == p && ns[c].ch == w[0]
    ensures PathTo(ns, i) == PathTo(ns, c) + w[1..]
    decreases i
  {
    var q := ns[i].parent;
    PathStep(ns, i);
    LastOff(PathP(ns, q), [ns[i].ch], PathP(ns, p), w);
    if |w| == 1 {
      assert PathP(ns, q) == PathP(ns, p);
      PathInjective(ns, q, p);
      c := i;
      assert OnParentChain(ns, root, i);
    } else {
      var w' := w[..|w| - 1];
      c := Decompose(ns, root, q, p, w');
      assert w'[1..] + [w[|w| - 1]] == w[1..];
    }
  }

  /** Two ways of writing one sequence, each ending in one element: without
      it they agree. */
  lemma LastOff<T>(a: seq<T>, e: seq<T>, b: seq<T>, w: seq<T>)
    requires |e| == 1 && |w| > 0 && a + e == b + w
    ensures a == b + w[..|w| - 1] && e[0] == w[|w| - 1]
  {
    assert a == (a + e)[..|a|];
    assert b + w[..|w| - 1] == (b + w)[..|b| + |w| - 1];
    assert e[0] == (a + e)[|a|] == (b + w)[|b| + |w| - 1];
  }

  /** A chain with no child carrying `s[0]` leaves `P + s` out of the contents. */
  lemma NoChildNoPath<Char>(ns: seq<Node<Char>>, root: int, p: int, s: seq<Char>)
    requires Shaped(ns, root) && IsLink(ns, p) && |s| > 0
    requires forall j :: InChain(ns, Head(ns, root, p), j) ==> ns[j].ch != s[0]
    ensures PathP(ns, p) + s !in ContentsOf(ns)
  {
    if PathP(ns, p) + s in ContentsOf(ns) {
      var i :| 0 <= i < |ns| && ns[i].data && PathTo(ns, i) == PathP(ns, p) + s;
      var c := Decompose(ns, root, i, p, s);
      assert false;
    }
  }

  // -------------------------------------------------------------------------
  // One step of the approximate search

  lemma MatchPart<Char>(ns: seq<Node<Char>>, root: int, last: int, q: seq<Char>)
    requires Shaped(ns, root) && IsLink(ns, last)
    ensures (|q| == 0 && PathP(ns, last) in ContentsOf(ns)) <==>
            (|q| == 0 && last != NIL && ns[last].data)
  {
    if last != NIL {
      TerminalPath(ns, root, last);
    } else {
      EmptyNotContained(ns, root, []);
    }
  }

  /** The output after the remove move and the exact match of one search step. */
  ghost function StartAcc<Char>(B: set<seq<Char>>, C: set<seq<Char>>, P: seq<Char>, q: seq<Char>, d: int): set<seq<Char>> {
    var B1 := if |q| > 0 && d > 0 then B + Approx(C, P, q[1..], d - 1) else B;
    if |q| == 0 && P in C then B1 + {P} else B1
  }

  /** The output after the normal, change and add moves through a child with character `x`. */
  ghost function ChildAcc<Char>(B: set<seq<Char>>, C: set<seq<Char>>, P: seq<Char>, q: seq<Char>, d: int, x: Char): set<seq<Char>> {
    var B1 := if |q| > 0 && x == q[0] then B + Approx(C, P + [x], q[1..], d) else B;
    var B2 := if d > 0 && |q| > 0 && x != q[0] then B1 + Approx(C, P + [x], q[1..], d - 1) else B1;
    if d > 0 then B2 + Approx(C, P + [x], q, d - 1) else B2
  }

  /** Every string of `Approx(C, P, q, d)` longer than `P` continues with a unit of `X`. */
  ghost predicate Covers<Char>(C: set<seq<Char>>, P: seq<Char>, q: seq<Char>, d: int, X: set<Char>) {
    forall s :: s in Approx(C, P, q, d) && |s| > |P| ==> s[|P|] in X
  }

  lemma StartLonger<Char>(B: set<seq<Char>>, C: set<seq<Char>>, P: seq<Char>, q: seq<Char>, d: int)
    ensures StartAcc(B, C, P, q, d) == StartAcc(B, C, P, q, d) + LongerPart(C, P, q, d, {})
  {
  }

  /** The remove move and the exact match find what is no longer than `P`. */
  lemma StartPart<Char>(B: set<seq<Char>>, C: set<seq<Char>>, P: seq<Char>, q: seq<Char>, d: int)
    ensures StartAcc(B, C, P, q, d) <= B + Approx(C, P, q, d)
    ensures forall s :: s in Approx(C, P, q, d) && |s| == |P| ==> s in StartAcc(B, C, P, q, d)
  {
    forall s | s in Approx(C, P, q, d) && |s| == |P|
      ensures s in StartAcc(B, C, P, q, d)
    {
      assert s == P;
      assert s[|P|..] == [];
      if |q| > 0 {
        assert Within([], q, d);
        assert Within([], q[1..], d - 1);
      }
    }
    forall s | s in StartAcc(B, C, P, q, d) && s !in B
      ensures s in Approx(C, P, q, d)
    {
      if s != P || |q| > 0 {
        assert Within(s[|P|..], q[1..], d - 1);
      } else {
        assert P[..|P|] == P && P[|P|..] == [];
      }
    }
  }

  /** With no budget and no query left the step ends after the exact match. */
  lemma NoMoveLeft<Char>(B: set<seq<Char>>, C: set<seq<Char>>, P: seq<Char>, q: seq<Char>, d: int)
    requires d == 0 && |q| == 0
    ensures StartAcc(B, C, P, q, d) == B + Approx(C, P, q, d)
  {
    StartPart(B, C, P, q, d);
    forall s | s in Approx(C, P, q, d)
      ensures |s| == |P|
    {
      assert Within(s[|P|..], q, d);
    }
  }

  /** Visiting a child with character `x` adds exactly the longer strings whose next unit is `x`. */
  lemma ChildStep<Char>(B: set<seq<Char>>, C: set<seq<Char>>, P: seq<Char>, q: seq<Char>, d: int, X: set<Char>, x: Char)
    ensures ChildAcc(StartAcc(B, C, P, q, d) + LongerPart(C, P, q, d, X), C, P, q, d, x) ==
            StartAcc(B, C, P, q, d) + LongerPart(C, P, q, d, X + {x})
  {
    var S := StartAcc(B, C, P, q, d);
    var P' := P + [x];
    forall s | s in ChildAcc(S + LongerPart(C, P, q, d, X), C, P, q, d, x) && s !in S + LongerPart(C, P, q, d, X)
      ensures s in LongerPart(C, P, q, d, X + {x})
    {
      assert s[..|P'|] == P';
      assert s[..|P|] == P && s[|P|] == x;
      var w := s[|P|..];
      assert w[0] == x && w[1..] == s[|P'|..];
      assert Within(w, q, d);
    }
    forall s | s in LongerPart(C, P, q, d, X + {x}) && s !in LongerPart(C, P, q, d, X)
      ensures s in ChildAcc(S + LongerPart(C, P, q, d, X), C, P, q, d, x)
    {
      var w := s[|P|..];
      assert s[|P|] == x;
      assert w[0] == x && w[1..] == s[|P'|..];
      assert s[..|P'|] == P';
      assert Within(w, q, d);
    }
  }

  /** Once every child is visited the step has found all of `Approx(C, P, q, d)`. */
  lemma SearchComplete<Char>(B: set<seq<Char>>, C: set<seq<Char>>, P: seq<Char>, q: seq<Char>, d: int, X: set<Char>)
    requires Covers(C, P, q, d, X)
    ensures StartAcc(B, C, P, q, d) + LongerPart(C, P, q, d, X) == B + Approx(C, P, q, d)
  {
    StartPart(B, C, P, q, d);
  }

  /** Once the whole child chain is visited, every longer string is accounted for. */
  lemma AllChildrenSeen<Char>(ns: seq<Node<Char>>, root: int, last: int, q: seq<Char>, d: int, seen: set<Char>)
    requires Shaped(ns, root) && IsLink(ns, last)
    requires forall j :: InChain(ns, Head(ns, root, last), j) ==> ns[j].ch in seen
    ensures Covers(ContentsOf(ns), PathP(ns, last), q, d, seen)
  {
    var P := PathP(ns, last);
    forall s | s in Approx(ContentsOf(ns), P, q, d) && |s| > |P|
      ensures s[|P|] in seen
    {
      var i :| 0 <= i < |ns| && ns[i].data && PathTo(ns, i) == s;
      assert s == P + s[|P|..];
      var c := Decompose(ns, root, i, last, s[|P|..]);
    }
  }

  lemma ApproxFromRoot<Char>(C: set<seq<Char>>, q: seq<Char>, d: int)
    ensures Approx(C, [], q, d) == (set w | w in C && Within(w, q, d))
  {
    forall s | s in C
      ensures s[..0] == [] && s[0..] == s
    {
    }
  }

  // -------------------------------------------------------------------------
  // Properties of the search

  /** Within budget zero (or less) only the query itself is reached. */
  lemma {:induction false} WithinNoBudget<Char>(w: seq<Char>, q: seq<Char>, d: int)
    requires d <= 0
    ensures Within(w, q, d) <==> w == q
    decreases |w| + |q|
  {
    if |w| > 0 && |q| > 0 {
      WithinNoBudget(w[1..], q[1..], d);
      if w == q {
        assert w[1..] == q[1..];
      } else if w[0] == q[0] {
        assert w == [w[0]] + w[1..] && q == [q[0]] + q[1..];
      }
    }
  }

  lemma {:induction false} WithinEmptyStored<Char>(q: seq<Char>, d: int)
    requires d >= 0
    ensures Within([], q, d) <==> |q| <= d
    decreases |q|
  {
    if |q| > 0 && d > 0 {
      WithinEmptyStored(q[1..], d - 1);
    }
  }

  lemma {:induction false} WithinEmptyQuery<Char>(w: seq<Char>, d: int)
    requires d >= 0
    ensures Within(w, [], d) <==> |w| <= d
    decreases |w|
  {
    if |w| > 0 && d > 0 {
      WithinEmptyQuery(w[1..], d - 1);
    }
  }

  /** The four moves reach exactly the strings within Levenshtein distance `d`. */
  lemma {:induction false} WithinIsEditDistance<Char>(w: seq<Char>, q: seq<Char>, d: int)
    requires d >= 0
    ensures Within(w, q, d) <==> EditDistance(w, q) <= d
    decreases |w| + |q|
  {
    if |w| == 0 {
      WithinEmptyStored(q, d);
    } else if |q| == 0 {
      WithinEmptyQuery(w, d);
    } else {
      WithinIsEditDistance(w[1..], q[1..], d);
      if d > 0 {
        WithinIsEditDistance(w, q[1..], d - 1);
        WithinIsEditDistance(w[1..], q, d - 1);
        WithinIsEditDistance(w[1..], q[1..], d - 1);
      }
      WithinStep(w, q, d);
    }
  }

  /** One unfolding of both definitions, given the answer for the shorter pairs. */
  lemma WithinStep<Char>(w: seq<Char>, q: seq<Char>, d: int)
    requires |w| > 0 && |q| > 0 && d >= 0
    requires Within(w[1..], q[1..], d) <==> EditDistance(w[1..], q[1..]) <= d
    requires d > 0 ==> (Within(w, q[1..], d - 1) <==> EditDistance(w, q[1..]) <= d - 1)
    requires d > 0 ==> (Within(w[1..], q, d - 1) <==> EditDistance(w[1..], q) <= d - 1)
    requires d > 0 ==> (Within(w[1..], q[1..], d - 1) <==> EditDistance(w[1..], q[1..]) <= d - 1)
    ensures Within(w, q, d) <==> EditDistance(w, q) <= d
  {
  }
}
