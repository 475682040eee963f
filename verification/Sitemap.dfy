/** The sitemap walk: nested lists become forum nodes with parents, depths and order. */
module Sitemap {
  import opened Bytes

  // Node ids; NoId is the empty text, which is also the parent of the roots.
  datatype Id = NoId | Id(text: string)

  // A link to a forum: its id (possibly empty), address and text.
  datatype Link = Link(id: Id, url: string, text: string)

  datatype Nested = NoList | SubList(items: seq<Item>)

  // One list item: whether it has an anchor, the forum that anchor links to, if it does,
  // the item's own text, and the first list inside it.
  datatype Item = Item(hasAnchor: bool, forum: Option<Link>, title: string, nested: Nested)

  datatype Node = Node(
    id: Id, title: string, url: string, parent: Id, depth: nat, order: nat, browsable: bool, hasChildren: bool)

  datatype Out = Out(nodes: seq<Node>, seen: set<Id>)

  // The node that a following bare list belongs to.
  datatype Last = NoLast | Last(idx: nat, id: Id, path: string)

  datatype Walked = Walked(out: Out, last: Last)

  // How a category's id is made from its path and title.
  type Category = (string, string) -> Id

  function Mark(nodes: seq<Node>, i: nat): seq<Node> {
    if i < |nodes| then nodes[i := nodes[i].(hasChildren := true)] else nodes
  }

  function Marked(out: Out, i: nat): Out {
    Out(Mark(out.nodes, i), out.seen)
  }

  predicate Wrapper(item: Item) {
    item.nested.SubList? && !item.hasAnchor && item.title == ""
  }

  // What an item says about its node: an empty id means no node.
  datatype Description = Description(id: Id, title: string, url: string, browsable: bool)

  /** A forum link names its forum; otherwise a title makes a category, which has no address of its own. */
  function Describe(cat: Category, item: Item, path: string): Description {
    if item.forum.Some? then
      var link := item.forum.value;
      Description(link.id, if item.title == "" then link.text else item.title, link.url, true)
    else if item.title != "" then
      var id := cat(path, item.title);
      Description(id, item.title, if id.NoId? then "" else id.text, false)
    else Description(NoId, "", "", false)
  }

  function JoinPath(path: string, title: string): string {
    if path == "" then title else path + "/" + title
  }

  // How the walk describes items and extends paths.
  datatype Env = Env(describe: (Item, string) -> Description, join: (string, string) -> string)

  function SitemapEnv(cat: Category): Env {
    Env((item: Item, path: string) => Describe(cat, item, path),
        (path: string, title: string) => JoinPath(path, title))
  }

  function IdOf(env: Env, item: Item, path: string): Id {
    env.describe(item, path).id
  }

  function NodeOf(env: Env, item: Item, path: string, parent: Id, depth: nat, order: nat): Node {
    var d := env.describe(item, path);
    Node(d.id, d.title, d.url, parent, depth, order, d.browsable, false)
  }

  function WalkList(env: Env, items: seq<Item>, parent: Id, depth: nat, path: string, last: Last, out: Out): Walked
    decreases items, 1
  {
    if items == [] then Walked(out, last)
    else
      var w := WalkItem(env, items[0], parent, depth, path, last, out);
      WalkList(env, items[1..], parent, depth, path, w.last, w.out)
  }

  /** The list that belongs to node last is walked one level down. */
  function WalkChildren(env: Env, items: seq<Item>, depth: nat, last: Last, out: Out): Out
    requires last.Last?
    decreases items, 2
  {
    WalkList(env, items, last.id, depth + 1, last.path, NoLast, Marked(out, last.idx)).out
  }

  function WalkItem(env: Env, item: Item, parent: Id, depth: nat, path: string, last: Last, out: Out): Walked
    decreases item, 0
  {
    if Wrapper(item) then
      if last.NoLast? then Walked(out, last)
      else Walked(WalkChildren(env, item.nested.items, depth, last, out), last)
    else
      var id := IdOf(env, item, path);
      if id.NoId? || id in out.seen then Walked(out, NoLast)
      else
        var n := NodeOf(env, item, path, parent, depth, |out.nodes|);
        var added := Out(out.nodes + [n], out.seen + {id});
        var here := Last(|out.nodes|, id, env.join(path, n.title));
        if item.nested.NoList? then Walked(added, here)
        else Walked(WalkChildren(env, item.nested.items, depth, here, added), here)
  }

  /** The whole parse: the first list of the page, at the root. */
  function Parse(cat: Category, items: seq<Item>): seq<Node> {
    WalkList(SitemapEnv(cat), items, NoId, 0, "", NoLast, Out([], {})).out.nodes
  }

  // ----- the output is a forest in preorder

  /** Node p is the parent of position i at this depth: the nearest earlier node one level up. */
  ghost predicate NearestAbove(nodes: seq<Node>, p: nat, i: nat, parent: Id, depth: nat) {
    && p < i <= |nodes| && nodes[p].id == parent && nodes[p].depth + 1 == depth && nodes[p].hasChildren
    && forall k :: p < k < i ==> nodes[k].depth >= depth
  }

  ghost predicate Placed(nodes: seq<Node>, i: nat, parent: Id, depth: nat) {
    if depth == 0 then parent.NoId? else exists p :: NearestAbove(nodes, p, i, parent, depth)
  }

  ghost predicate Distinct(nodes: seq<Node>) {
    forall i, j :: 0 <= i < j < |nodes| ==> nodes[i].id != nodes[j].id
  }

  ghost predicate Numbered(nodes: seq<Node>) {
    forall i :: 0 <= i < |nodes| ==> nodes[i].order == i && !nodes[i].id.NoId?
  }

  ghost predicate PlacedAt(nodes: seq<Node>, i: nat) {
    i < |nodes| && Placed(nodes, i, nodes[i].parent, nodes[i].depth)
  }

  ghost predicate AllPlaced(nodes: seq<Node>) {
    forall i {:trigger PlacedAt(nodes, i)} :: 0 <= i < |nodes| ==> PlacedAt(nodes, i)
  }

  ghost predicate Forest(nodes: seq<Node>) {
    Distinct(nodes) && Numbered(nodes) && AllPlaced(nodes)
  }

  ghost predicate SeenOk(out: Out) {
    forall i :: 0 <= i < |out.nodes| ==> out.nodes[i].id in out.seen
  }

  /** The same node, with its flag possibly set since. */
  predicate Same(n: Node, n': Node) {
    && n'.id == n.id && n'.parent == n.parent && n'.depth == n.depth && n'.order == n.order
    && (n.hasChildren ==> n'.hasChildren)
  }

  /** nodes' has the same nodes in front, up to set flags, and only deeper ones behind. */
  ghost predicate Extends(nodes: seq<Node>, nodes': seq<Node>, depth: nat) {
    && |nodes| <= |nodes'|
    && (forall i :: 0 <= i < |nodes| ==> Same(nodes[i], nodes'[i]))
    && (forall k :: |nodes| <= k < |nodes'| ==> nodes'[k].depth >= depth)
  }

  lemma ExtendsTransitive(a: seq<Node>, b: seq<Node>, c: seq<Node>, depth: nat)
    requires Extends(a, b, depth) && Extends(b, c, depth)
    ensures Extends(a, c, depth)
  {
  }

  /** A place stays a place while only deeper nodes are added. */
  lemma PlacedExtends(nodes: seq<Node>, nodes': seq<Node>, parent: Id, depth: nat)
    requires Placed(nodes, |nodes|, parent, depth) && Extends(nodes, nodes', depth)
    ensures Placed(nodes', |nodes'|, parent, depth)
  {
    if depth > 0 {
      var p: nat :| NearestAbove(nodes, p, |nodes|, parent, depth);
      assert Same(nodes[p], nodes'[p]);
      assert NearestAbove(nodes', p, |nodes'|, parent, depth);
    }
  }

  lemma MarkPlaced(nodes: seq<Node>, i: nat, j: nat)
    requires PlacedAt(nodes, j) && i < |nodes|
    ensures PlacedAt(Mark(nodes, i), j)
  {
    if nodes[j].depth > 0 {
      var p: nat :| NearestAbove(nodes, p, j, nodes[j].parent, nodes[j].depth);
      assert NearestAbove(Mark(nodes, i), p, j, nodes[j].parent, nodes[j].depth);
    }
  }

  lemma MarkKeeps(nodes: seq<Node>, i: nat, depth: nat)
    requires Forest(nodes) && i < |nodes|
    ensures Forest(Mark(nodes, i)) && Extends(nodes, Mark(nodes, i), depth)
  {
    forall j | 0 <= j < |nodes|
      ensures PlacedAt(Mark(nodes, i), j)
    {
      assert PlacedAt(nodes, j);
      MarkPlaced(nodes, i, j);
    }
  }

  lemma NearestStays(nodes: seq<Node>, n: Node, p: nat, i: nat, parent: Id, depth: nat)
    requires NearestAbove(nodes, p, i, parent, depth)
    ensures NearestAbove(nodes + [n], p, i, parent, depth)
  {
  }

  lemma PlacedStays(nodes: seq<Node>, n: Node, i: nat, parent: Id, depth: nat)
    requires i <= |nodes| && Placed(nodes, i, parent, depth)
    ensures Placed(nodes + [n], i, parent, depth)
  {
    if depth > 0 {
      var p: nat :| NearestAbove(nodes, p, i, parent, depth);
      NearestStays(nodes, n, p, i, parent, depth);
    }
  }

  lemma AppendPlaced(nodes: seq<Node>, n: Node)
    requires AllPlaced(nodes) && Placed(nodes, |nodes|, n.parent, n.depth)
    ensures AllPlaced(nodes + [n])
  {
    var nodes' := nodes + [n];
    forall j | 0 <= j < |nodes'|
      ensures PlacedAt(nodes', j)
    {
      assert j < |nodes| ==> PlacedAt(nodes, j);
      PlacedStays(nodes, n, j, nodes'[j].parent, nodes'[j].depth);
    }
  }

  lemma AppendKeeps(nodes: seq<Node>, n: Node)
    requires Forest(nodes) && (forall i :: 0 <= i < |nodes| ==> nodes[i].id != n.id)
    requires !n.id.NoId? && n.order == |nodes| && Placed(nodes, |nodes|, n.parent, n.depth)
    ensures Forest(nodes + [n]) && Extends(nodes, nodes + [n], n.depth)
  {
    AppendPlaced(nodes, n);
  }

  ghost predicate Base(start: seq<Node>, out: Out, parent: Id, depth: nat) {
    && Forest(out.nodes) && SeenOk(out) && Placed(out.nodes, |out.nodes|, parent, depth)
    && Extends(start, out.nodes, depth)
  }

  /** The invariant of a walk at this depth under this parent, which began with the nodes start. */
  ghost predicate Good(start: seq<Node>, out: Out, parent: Id, depth: nat, last: Last) {
    match last
    case NoLast => Base(start, out, parent, depth)
    case Last(idx, id, _) => Base(start, out, parent, depth) && LastAt(out.nodes, idx, id, depth)
  }

  /** Node idx is the latest at this depth. */
  ghost predicate LastAt(nodes: seq<Node>, idx: nat, id: Id, depth: nat) {
    idx < |nodes| && nodes[idx].id == id && nodes[idx].depth == depth &&
    forall k :: idx < k < |nodes| ==> nodes[k].depth > depth
  }

  lemma GoodFrom(start: seq<Node>, mid: Out, out: Out, parent: Id, depth: nat, last: Last, last': Last)
    requires Good(start, mid, parent, depth, last) && Good(mid.nodes, out, parent, depth, last')
    ensures Good(start, out, parent, depth, last')
  {
    ExtendsTransitive(start, mid.nodes, out.nodes, depth);
  }

  lemma Restart(start: seq<Node>, out: Out, parent: Id, depth: nat, last: Last)
    requires Good(start, out, parent, depth, last)
    ensures Good(out.nodes, out, parent, depth, last)
  {
  }

  lemma BeforeChildren(out: Out, parent: Id, depth: nat, last: Last)
    requires Good(out.nodes, out, parent, depth, last) && last.Last?
    ensures Good(Marked(out, last.idx).nodes, Marked(out, last.idx), last.id, depth + 1, NoLast)
  {
    MarkKeeps(out.nodes, last.idx, depth);
    var marked := Mark(out.nodes, last.idx);
    assert NearestAbove(marked, last.idx, |marked|, last.id, depth + 1);
  }

  lemma LastStays(nodes: seq<Node>, nodes': seq<Node>, idx: nat, id: Id, depth: nat)
    requires LastAt(nodes, idx, id, depth) && Extends(nodes, nodes', depth + 1)
    ensures LastAt(nodes', idx, id, depth)
  {
    forall k | idx <= k < |nodes|
      ensures nodes'[k].depth == nodes[k].depth && nodes'[k].id == nodes[k].id
    {
      assert Same(nodes[k], nodes'[k]);
    }
  }

  lemma AfterChildren(out: Out, out': Out, parent: Id, depth: nat, last: Last, child: Last)
    requires Good(out.nodes, out, parent, depth, last) && last.Last?
    requires Good(Mark(out.nodes, last.idx), out', last.id, depth + 1, child)
    ensures Good(out.nodes, out', parent, depth, last)
  {
    MarkKeeps(out.nodes, last.idx, depth + 1);
    ExtendsTransitive(out.nodes, Mark(out.nodes, last.idx), out'.nodes, depth + 1);
    assert Extends(out.nodes, out'.nodes, depth);
    PlacedExtends(out.nodes, out'.nodes, parent, depth);
    LastStays(out.nodes, out'.nodes, last.idx, last.id, depth);
  }

  lemma AddGood(out: Out, n: Node, last: Last, path: string)
    requires Good(out.nodes, out, n.parent, n.depth, last)
    requires !n.id.NoId? && n.id !in out.seen && n.order == |out.nodes|
    ensures Good(out.nodes, Out(out.nodes + [n], out.seen + {n.id}), n.parent, n.depth, Last(|out.nodes|, n.id, path))
  {
    AppendKeeps(out.nodes, n);
    PlacedExtends(out.nodes, out.nodes + [n], n.parent, n.depth);
  }

  /** What walking the list of node last must keep, for the walk of the node itself to go on. */
  ghost predicate SublistGood(env: Env, items: seq<Item>, depth: nat, last: Last, out: Out)
    requires last.Last?
  {
    var w := WalkList(env, items, last.id, depth + 1, last.path, NoLast, Marked(out, last.idx));
    Good(Mark(out.nodes, last.idx), w.out, last.id, depth + 1, w.last)
  }

  lemma ChildrenGood(env: Env, items: seq<Item>, parent: Id, depth: nat, last: Last, out: Out)
    requires Good(out.nodes, out, parent, depth, last) && last.Last? && SublistGood(env, items, depth, last, out)
    ensures Good(out.nodes, WalkChildren(env, items, depth, last, out), parent, depth, last)
  {
    var w := WalkList(env, items, last.id, depth + 1, last.path, NoLast, Marked(out, last.idx));
    AfterChildren(out, w.out, parent, depth, last, w.last);
  }

  lemma NodeBefore(out: Out, n: Node, last: Last, path: string)
    requires Good(out.nodes, out, n.parent, n.depth, last)
    requires !n.id.NoId? && n.id !in out.seen && n.order == |out.nodes|
    ensures var marked := Marked(Out(out.nodes + [n], out.seen + {n.id}), |out.nodes|);
            Good(marked.nodes, marked, n.id, n.depth + 1, NoLast)
  {
    var here, added := Last(|out.nodes|, n.id, path), Out(out.nodes + [n], out.seen + {n.id});
    AddGood(out, n, last, path);
    Restart(out.nodes, added, n.parent, n.depth, here);
    BeforeChildren(added, n.parent, n.depth, here);
  }

  lemma NodeAfter(env: Env, items: seq<Item>, out: Out, n: Node, last: Last, path: string)
    requires Good(out.nodes, out, n.parent, n.depth, last)
    requires !n.id.NoId? && n.id !in out.seen && n.order == |out.nodes|
    requires SublistGood(env, items, n.depth, Last(|out.nodes|, n.id, path), Out(out.nodes + [n], out.seen + {n.id}))
    ensures var here, added := Last(|out.nodes|, n.id, path), Out(out.nodes + [n], out.seen + {n.id});
            Good(out.nodes, WalkChildren(env, items, n.depth, here, added), n.parent, n.depth, here)
  {
    var here, added := Last(|out.nodes|, n.id, path), Out(out.nodes + [n], out.seen + {n.id});
    AddGood(out, n, last, path);
    Restart(out.nodes, added, n.parent, n.depth, here);
    ChildrenGood(env, items, n.parent, n.depth, here, added);
    GoodFrom(out.nodes, added, WalkChildren(env, items, n.depth, here, added), n.parent, n.depth, here, here);
  }

  lemma {:induction false} WrapperGood(env: Env, items: seq<Item>, parent: Id, depth: nat, last: Last, out: Out)
    requires Good(out.nodes, out, parent, depth, last) && last.Last?
    ensures Good(out.nodes, WalkChildren(env, items, depth, last, out), parent, depth, last)
    decreases items, 1
  {
    BeforeChildren(out, parent, depth, last);
    WalkListGood(env, items, last.id, depth + 1, last.path, NoLast, Marked(out, last.idx));
    ChildrenGood(env, items, parent, depth, last, out);
  }

  /** The list inside a node's own item. */
  lemma {:induction false} InlineGood(env: Env, items: seq<Item>, out: Out, n: Node, last: Last, path: string)
    requires Good(out.nodes, out, n.parent, n.depth, last)
    requires !n.id.NoId? && n.id !in out.seen && n.order == |out.nodes|
    ensures var here, added := Last(|out.nodes|, n.id, path), Out(out.nodes + [n], out.seen + {n.id});
            Good(out.nodes, WalkChildren(env, items, n.depth, here, added), n.parent, n.depth, here)
    decreases items, 1
  {
    NodeBefore(out, n, last, path);
    WalkListGood(env, items, n.id, n.depth + 1, path, NoLast,
                 Marked(Out(out.nodes + [n], out.seen + {n.id}), |out.nodes|));
    NodeAfter(env, items, out, n, last, path);
  }

  lemma {:induction false} WalkItemGood(env: Env, item: Item, parent: Id, depth: nat, path: string, last: Last,
                                        out: Out)
    requires Good(out.nodes, out, parent, depth, last)
    ensures var w := WalkItem(env, item, parent, depth, path, last, out);
            Good(out.nodes, w.out, parent, depth, w.last)
    decreases item, 0
  {
    var id := IdOf(env, item, path);
    if Wrapper(item) {
      if last.Last? {
        WrapperGood(env, item.nested.items, parent, depth, last, out);
      }
    } else if !id.NoId? && id !in out.seen {
      var n := NodeOf(env, item, path, parent, depth, |out.nodes|);
      if item.nested.SubList? {
        InlineGood(env, item.nested.items, out, n, last, env.join(path, n.title));
      } else {
        AddGood(out, n, last, env.join(path, n.title));
      }
    }
  }

  lemma {:induction false} WalkListGood(env: Env, items: seq<Item>, parent: Id, depth: nat, path: string,
                                        last: Last, out: Out)
    requires Good(out.nodes, out, parent, depth, last)
    ensures var w := WalkList(env, items, parent, depth, path, last, out);
            Good(out.nodes, w.out, parent, depth, w.last)
    decreases items, 0
  {
    if items != [] {
      WalkItemGood(env, items[0], parent, depth, path, last, out);
      var w := WalkItem(env, items[0], parent, depth, path, last, out);
      Restart(out.nodes, w.out, parent, depth, w.last);
      WalkListGood(env, items[1..], parent, depth, path, w.last, w.out);
      var v := WalkList(env, items[1..], parent, depth, path, w.last, w.out);
      GoodFrom(out.nodes, w.out, v.out, parent, depth, w.last, v.last);
    }
  }

  /** For every list tree the parse is a forest in preorder with distinct ids and consistent flags. */
  lemma ParseIsForest(cat: Category, items: seq<Item>)
    ensures Forest(Parse(cat, items))
  {
    WalkListGood(SitemapEnv(cat), items, NoId, 0, "", NoLast, Out([], {}));
  }

  // ----- round trip: the walk reads back any forest from its markup

  // A node and its subforums. inline: its list is inside its own item rather than in a following bare one.
  datatype Tree = Tree(head: Item, inline: bool, kids: seq<Tree>)

  function Render(ts: seq<Tree>): seq<Item>
    decreases ts
  {
    if ts == [] then []
    else
      var t := ts[0];
      var kids := SubList(Render(t.kids));
      (if t.kids == [] then [t.head]
       else if t.inline then [t.head.(nested := kids)]
       else [t.head, Item(false, None, "", kids)]) + Render(ts[1..])
  }

  /** The nodes of the trees in preorder, numbered from start. */
  function Flatten(env: Env, ts: seq<Tree>, parent: Id, depth: nat, path: string, start: nat): seq<Node>
    decreases ts
  {
    if ts == [] then []
    else
      var t := ts[0];
      var n := NodeOf(env, t.head, path, parent, depth, start).(hasChildren := t.kids != []);
      var below := Flatten(env, t.kids, n.id, depth + 1, env.join(path, n.title), start + 1);
      [n] + below + Flatten(env, ts[1..], parent, depth, path, start + 1 + |below|)
  }

  /** Heads are plain items: an anchor or a title, and no list of their own yet. */
  ghost predicate Heads(ts: seq<Tree>)
    decreases ts
  {
    ts == [] || (PlainHead(ts[0]) && Heads(ts[0].kids) && Heads(ts[1..]))
  }

  predicate PlainHead(t: Tree) {
    t.head.nested.NoList? && (t.head.hasAnchor || t.head.title != "")
  }

  /** The ids are non-empty, pairwise distinct and none was seen. */
  ghost predicate FreshIds(seen: set<Id>, ns: seq<Node>)
    decreases |ns|
  {
    ns == [] || (!ns[0].id.NoId? && ns[0].id !in seen && FreshIds(seen + {ns[0].id}, ns[1..]))
  }

  function Ids(ns: seq<Node>): set<Id> {
    set n | n in ns :: n.id
  }

  function Plus(out: Out, ns: seq<Node>): Out {
    Out(out.nodes + ns, out.seen + Ids(ns))
  }

  lemma {:induction false} PlusPlus(out: Out, a: seq<Node>, b: seq<Node>)
    ensures Plus(Plus(out, a), b) == Plus(out, a + b)
  {
    assert out.nodes + a + b == out.nodes + (a + b);
    assert Ids(a + b) == Ids(a) + Ids(b) by {
      assert forall n :: n in a + b <==> n in a || n in b;
    }
  }

  lemma IdsFirst(ns: seq<Node>)
    requires ns != []
    ensures Ids(ns) == {ns[0].id} + Ids(ns[1..])
  {
    assert forall n :: n in ns <==> n == ns[0] || n in ns[1..];
  }

  lemma {:induction false} FreshParts(seen: set<Id>, a: seq<Node>, b: seq<Node>)
    requires FreshIds(seen, a + b)
    ensures FreshIds(seen, a) && FreshIds(seen + Ids(a), b)
    decreases |a|
  {
    if a == [] {
      assert a + b == b && seen + Ids(a) == seen;
    } else {
      assert (a + b)[1..] == a[1..] + b;
      FreshParts(seen + {a[0].id}, a[1..], b);
      IdsFirst(a);
      assert seen + {a[0].id} + Ids(a[1..]) == seen + Ids(a);
    }
  }

  lemma MarkLast(out: Out, n: Node)
    ensures Marked(Out(out.nodes + [n], out.seen + {n.id}), |out.nodes|) == Plus(out, [n.(hasChildren := true)])
  {
    assert Ids([n.(hasChildren := true)]) == {n.id};
  }

  lemma PlusOne(out: Out, n: Node)
    ensures Plus(out, [n]) == Out(out.nodes + [n], out.seen + {n.id})
  {
    assert Ids([n]) == {n.id};
  }

  function HeadNode(env: Env, t: Tree, parent: Id, depth: nat, path: string, start: nat): Node {
    NodeOf(env, t.head, path, parent, depth, start).(hasChildren := t.kids != [])
  }

  /** The nodes of one tree in preorder. */
  function FlattenTree(env: Env, t: Tree, parent: Id, depth: nat, path: string, start: nat): seq<Node> {
    var n := HeadNode(env, t, parent, depth, path, start);
    [n] + Flatten(env, t.kids, n.id, depth + 1, env.join(path, n.title), start + 1)
  }

  function RenderTree(t: Tree): seq<Item> {
    if t.kids == [] then [t.head]
    else if t.inline then [t.head.(nested := SubList(Render(t.kids)))]
    else [t.head, Item(false, None, "", SubList(Render(t.kids)))]
  }

  lemma {:induction false} ByTree(env: Env, ts: seq<Tree>, parent: Id, depth: nat, path: string, out: Out)
    requires ts != []
    ensures Render(ts) == RenderTree(ts[0]) + Render(ts[1..])
    ensures var first := FlattenTree(env, ts[0], parent, depth, path, |out.nodes|);
            Flatten(env, ts, parent, depth, path, |out.nodes|) ==
            first + Flatten(env, ts[1..], parent, depth, path, |Plus(out, first).nodes|)
  {
    var first := FlattenTree(env, ts[0], parent, depth, path, |out.nodes|);
    assert |Plus(out, first).nodes| == |out.nodes| + |first|;
  }

  /** An item's description does not depend on the list inside it. */
  ghost predicate IgnoresLists(env: Env) {
    forall item: Item, nested, path :: env.describe(item.(nested := nested), path) == env.describe(item, path)
  }

  /** What is asked of one tree for the walk to read it: a plain head with a fresh id, and kids read back. */
  ghost predicate Readable(env: Env, t: Tree, parent: Id, depth: nat, path: string, out: Out) {
    var n := HeadNode(env, t, parent, depth, path, |out.nodes|);
    && IgnoresLists(env)
    && PlainHead(t)
    && !n.id.NoId? && n.id !in out.seen
    && WalkList(env, Render(t.kids), n.id, depth + 1, env.join(path, n.title), NoLast, Plus(out, [n])).out ==
       Plus(Plus(out, [n]), Flatten(env, t.kids, n.id, depth + 1, env.join(path, n.title), |out.nodes| + 1))
  }

  /** Reading the kids of a tree that has some, after its head was added unmarked. */
  lemma {:induction false} WalkKids(env: Env, t: Tree, parent: Id, depth: nat, path: string, out: Out)
    requires Readable(env, t, parent, depth, path, out) && t.kids != []
    ensures var n := NodeOf(env, t.head, path, parent, depth, |out.nodes|);
            WalkChildren(env, Render(t.kids), depth, Last(|out.nodes|, n.id, env.join(path, n.title)),
                         Out(out.nodes + [n], out.seen + {n.id})) ==
            Plus(out, FlattenTree(env, t, parent, depth, path, |out.nodes|))
  {
    var n := NodeOf(env, t.head, path, parent, depth, |out.nodes|);
    MarkLast(out, n);
    var m := HeadNode(env, t, parent, depth, path, |out.nodes|);
    PlusPlus(out, [m], Flatten(env, t.kids, m.id, depth + 1, env.join(path, m.title), |out.nodes| + 1));
  }

  lemma {:induction false} WalkHead(env: Env, t: Tree, parent: Id, depth: nat, path: string, last: Last, out: Out)
    requires Readable(env, t, parent, depth, path, out)
    ensures var n := NodeOf(env, t.head, path, parent, depth, |out.nodes|);
            WalkItem(env, t.head, parent, depth, path, last, out) ==
            Walked(Out(out.nodes + [n], out.seen + {n.id}), Last(|out.nodes|, n.id, env.join(path, n.title)))
  {
  }

  /** The node a list behind this tree would belong to. */
  function Here(env: Env, t: Tree, parent: Id, depth: nat, path: string, out: Out): Last {
    var n := HeadNode(env, t, parent, depth, path, |out.nodes|);
    Last(|out.nodes|, n.id, env.join(path, n.title))
  }

  lemma {:induction false} WalkTree(env: Env, t: Tree, more: seq<Item>, parent: Id, depth: nat, path: string,
                                    last: Last, out: Out)
    requires Readable(env, t, parent, depth, path, out)
    ensures WalkList(env, RenderTree(t) + more, parent, depth, path, last, out) ==
            WalkList(env, more, parent, depth, path, Here(env, t, parent, depth, path, out),
                     Plus(out, FlattenTree(env, t, parent, depth, path, |out.nodes|)))
  {
    var n := NodeOf(env, t.head, path, parent, depth, |out.nodes|);
    var here := Here(env, t, parent, depth, path, out);
    var all := FlattenTree(env, t, parent, depth, path, |out.nodes|);
    if t.kids == [] {
      WalkHead(env, t, parent, depth, path, last, out);
      PlusOne(out, n);
      assert all == [n];
      assert (RenderTree(t) + more)[1..] == more;
    } else if t.inline {
      WalkKids(env, t, parent, depth, path, out);
      var item := t.head.(nested := SubList(Render(t.kids)));
      assert (RenderTree(t) + more)[1..] == more;
      assert NodeOf(env, item, path, parent, depth, |out.nodes|) == n;
      assert WalkItem(env, item, parent, depth, path, last, out) == Walked(Plus(out, all), here);
    } else {
      WalkHead(env, t, parent, depth, path, last, out);
      WalkKids(env, t, parent, depth, path, out);
      WalkTwo(env, t.head, Item(false, None, "", SubList(Render(t.kids))), more, parent, depth, path, last, out);
    }
  }

  /** The walk takes two items one after the other. */
  lemma {:induction false} WalkTwo(env: Env, a: Item, b: Item, more: seq<Item>, parent: Id, depth: nat,
                                   path: string, last: Last, out: Out)
    ensures var v := WalkItem(env, a, parent, depth, path, last, out);
            var w := WalkItem(env, b, parent, depth, path, v.last, v.out);
            WalkList(env, [a, b] + more, parent, depth, path, last, out) ==
            WalkList(env, more, parent, depth, path, w.last, w.out)
  {
    var items := [a, b] + more;
    assert items[1..] == [b] + more && ([b] + more)[1..] == more;
  }

  lemma FreshSplit(out: Out, n: Node, below: seq<Node>, rest: seq<Node>)
    requires FreshIds(out.seen, ([n] + below) + rest)
    ensures !n.id.NoId? && n.id !in out.seen
    ensures FreshIds(Plus(out, [n]).seen, below) && FreshIds(Plus(out, [n] + below).seen, rest)
  {
    FreshParts(out.seen, [n] + below, rest);
    FreshParts(out.seen, [n], below);
    assert ([n] + below)[0] == n;
  }

  /** The first tree read, then the rest of the items from there. */
  lemma {:induction false} JoinTrees(env: Env, t: Tree, more: seq<Item>, rest: seq<Node>, parent: Id, depth: nat,
                                     path: string, last: Last, out: Out)
    requires Readable(env, t, parent, depth, path, out)
    requires var all := FlattenTree(env, t, parent, depth, path, |out.nodes|);
             WalkList(env, more, parent, depth, path, Here(env, t, parent, depth, path, out), Plus(out, all)).out ==
             Plus(Plus(out, all), rest)
    ensures WalkList(env, RenderTree(t) + more, parent, depth, path, last, out).out ==
            Plus(out, FlattenTree(env, t, parent, depth, path, |out.nodes|) + rest)
  {
    WalkTree(env, t, more, parent, depth, path, last, out);
    PlusPlus(out, FlattenTree(env, t, parent, depth, path, |out.nodes|), rest);
  }

  lemma {:induction false} WalkRender(env: Env, ts: seq<Tree>, parent: Id, depth: nat, path: string, last: Last,
                                      out: Out)
    requires IgnoresLists(env) && Heads(ts) && FreshIds(out.seen, Flatten(env, ts, parent, depth, path, |out.nodes|))
    ensures WalkList(env, Render(ts), parent, depth, path, last, out).out ==
            Plus(out, Flatten(env, ts, parent, depth, path, |out.nodes|))
    decreases ts
  {
    if ts == [] {
      assert Plus(out, []) == out;
    } else {
      var t, start := ts[0], |out.nodes|;
      var n := HeadNode(env, t, parent, depth, path, start);
      var below := Flatten(env, t.kids, n.id, depth + 1, env.join(path, n.title), start + 1);
      var all := FlattenTree(env, t, parent, depth, path, start);
      var rest := Flatten(env, ts[1..], parent, depth, path, |Plus(out, all).nodes|);
      ByTree(env, ts, parent, depth, path, out);
      assert all == [n] + below && |Plus(out, [n]).nodes| == start + 1;
      FreshSplit(out, n, below, rest);
      WalkRender(env, t.kids, n.id, depth + 1, env.join(path, n.title), NoLast, Plus(out, [n]));
      WalkRender(env, ts[1..], parent, depth, path, Here(env, t, parent, depth, path, out), Plus(out, all));
      JoinTrees(env, t, Render(ts[1..]), rest, parent, depth, path, last, out);
    }
  }

  /** Any forest with distinct ids, marked up with lists inside or behind their items, parses to its preorder. */
  lemma ParseRender(cat: Category, ts: seq<Tree>)
    requires Heads(ts) && FreshIds({}, Flatten(SitemapEnv(cat), ts, NoId, 0, "", 0))
    ensures Parse(cat, Render(ts)) == Flatten(SitemapEnv(cat), ts, NoId, 0, "", 0)
  {
    var env := SitemapEnv(cat);
    assert IgnoresLists(env);
    WalkRender(env, ts, NoId, 0, "", NoLast, Out([], {}));
    assert [] + Flatten(env, ts, NoId, 0, "", 0) == Flatten(env, ts, NoId, 0, "", 0);
  }

  // ----- what makes no node, and what a node says

  /**
   An item that makes no node, having no id or one that was seen, leaves nothing behind: neither its
   own list nor the bare lists that follow it.
   */
  lemma {:induction false} SkippedWithLists(env: Env, item: Item, bare: seq<Item>, more: seq<Item>, parent: Id,
                                            depth: nat, path: string, last: Last, out: Out)
    requires !Wrapper(item) && (env.describe(item, path).id.NoId? || env.describe(item, path).id in out.seen)
    requires forall i :: 0 <= i < |bare| ==> Wrapper(bare[i])
    ensures WalkList(env, [item] + bare + more, parent, depth, path, last, out) ==
            WalkList(env, more, parent, depth, path, NoLast, out)
  {
    assert ([item] + bare + more)[1..] == bare + more;
    BareListsSkipped(env, bare, more, parent, depth, path, out);
  }

  lemma {:induction false} BareListsSkipped(env: Env, bare: seq<Item>, more: seq<Item>, parent: Id, depth: nat,
                                            path: string, out: Out)
    requires forall i :: 0 <= i < |bare| ==> Wrapper(bare[i])
    ensures WalkList(env, bare + more, parent, depth, path, NoLast, out) ==
            WalkList(env, more, parent, depth, path, NoLast, out)
  {
    if bare == [] {
      assert bare + more == more;
    } else {
      assert (bare + more)[1..] == bare[1..] + more;
      BareListsSkipped(env, bare[1..], more, parent, depth, path, out);
    }
  }

  /** A list of one plain item: a link to a forum gives a page to browse, a title alone a category, all else nothing. */
  lemma OneItem(cat: Category, item: Item)
    requires item.nested.NoList?
    ensures Parse(cat, [item]) ==
            match item.forum
            case Some(Link(Id(id), url, text)) =>
              [Node(Id(id), if item.title == "" then text else item.title, url, NoId, 0, 0, true, false)]
            case None =>
              if item.title == "" || cat("", item.title).NoId? then []
              else
                var id := cat("", item.title);
                [Node(id, item.title, id.text, NoId, 0, 0, false, false)]
            case _ => []
  {
    var env := SitemapEnv(cat);
    var w := WalkItem(env, item, NoId, 0, "", NoLast, Out([], {}));
    assert [item][1..] == [];
    assert WalkList(env, [], NoId, 0, "", w.last, w.out) == w;
  }

  /** The list of a category is walked under its id, one level down, with its title joined to the path by a slash. */
  lemma CategoryOpens(cat: Category, title: string, kids: seq<Item>, parent: Id, depth: nat, path: string, out: Out)
    requires title != "" && !cat(path, title).NoId? && cat(path, title) !in out.seen
    ensures var (env, id) := (SitemapEnv(cat), cat(path, title));
            var n := Node(id, title, id.text, parent, depth, |out.nodes|, false, true);
            WalkList(env, [Item(false, None, title, SubList(kids))], parent, depth, path, NoLast, out).out ==
            WalkList(env, kids, id, depth + 1, if path == "" then title else path + "/" + title, NoLast,
                     Out(out.nodes + [n], out.seen + {id})).out
  {
    var env, item := SitemapEnv(cat), Item(false, None, title, SubList(kids));
    var w := WalkItem(env, item, parent, depth, path, NoLast, out);
    var n := NodeOf(env, item, path, parent, depth, |out.nodes|);
    assert [item][1..] == [];
    assert WalkList(env, [item], parent, depth, path, NoLast, out) == w;
    var added, here := Out(out.nodes + [n], out.seen + {n.id}), Last(|out.nodes|, n.id, JoinPath(path, title));
    assert w.out == WalkChildren(env, kids, depth, here, added);
    MarkLast(out, n);
    PlusOne(out, n.(hasChildren := true));
  }

  /** The walk as the program runs it, appending to nodes and marking seen. */
  class Parser {
    const env: Env
    var nodes: seq<Node>
    var seen: set<Id>

    constructor (cat: Category)
      ensures env == SitemapEnv(cat) && nodes == [] && seen == {}
    {
      env, nodes, seen := SitemapEnv(cat), [], {};
    }

    method Walk(items: seq<Item>, parent: Id, depth: nat, path: string)
      modifies this`nodes, this`seen
      ensures Out(nodes, seen) == WalkList(env, items, parent, depth, path, NoLast, old(Out(nodes, seen))).out
      decreases items, 1
    {
      ghost var goal := WalkList(env, items, parent, depth, path, NoLast, Out(nodes, seen));
      var last := NoLast;
      for i := 0 to |items|
        invariant WalkList(env, items[i..], parent, depth, path, last, Out(nodes, seen)) == goal
      {
        assert items[i..][0] == items[i] && items[i..][1..] == items[i + 1..];
        last := Visit(items[i], parent, depth, path, last);
      }
    }

    /** One item of a list; the result is the node a following bare list belongs to. */
    method Visit(item: Item, parent: Id, depth: nat, path: string, last: Last) returns (last': Last)
      modifies this`nodes, this`seen
      ensures Walked(Out(nodes, seen), last') == WalkItem(env, item, parent, depth, path, last, old(Out(nodes, seen)))
      decreases item, 0
    {
      if Wrapper(item) {
        if last.Last? {
          nodes := Mark(nodes, last.idx);
          Walk(item.nested.items, last.id, depth + 1, last.path);
        }
        return last;
      }
      var id := IdOf(env, item, path);
      if id.NoId? || id in seen {
        return NoLast;
      }
      var n := NodeOf(env, item, path, parent, depth, |nodes|);
      last' := Last(|nodes|, id, env.join(path, n.title));
      nodes := nodes + [n];
      seen := seen + {id};
      if item.nested.SubList? {
        nodes := Mark(nodes, last'.idx);
        Walk(item.nested.items, id, depth + 1, last'.path);
      }
    }

    method ParseNavigation(items: seq<Item>, ghost cat: Category)
      requires env == SitemapEnv(cat) && nodes == [] && seen == {}
      modifies this`nodes, this`seen
      ensures nodes == Parse(cat, items) && Forest(nodes)
    {
      Walk(items, NoId, 0, "");
      ParseIsForest(cat, items);
    }
  }
}
