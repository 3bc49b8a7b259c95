/** Finding the identifier at a point of a syntax tree. */
module TreeSearch {
  import opened Options

  datatype Point = Point(row: nat, column: nat)
  {
    predicate UpTo(other: Point) {
      row < other.row || (row == other.row && column <= other.column)
    }
  }

  datatype Node = Node(kind: string, start: Point, end: Point, children: seq<Node>)
  {
    /** Both ends belong to the node. */
    predicate Contains(p: Point) {
      start.UpTo(p) && p.UpTo(end)
    }
  }

  /** Which kinds look like identifiers; the callers differ in their lists. */
  type Kinds = string -> bool

  /** Descends into the first child that yields something; a node itself counts only when no child does. */
  function Find(node: Node, p: Point, like: Kinds): Option<Node>
    decreases node
  {
    if !node.Contains(p) then None
    else
      match FindAmong(node.children, p, like)
      case Some(found) => Some(found)
      case None => if like(node.kind) then Some(node) else None
  }

  function FindAmong(children: seq<Node>, p: Point, like: Kinds): Option<Node>
    decreases children
  {
    if children == [] then None
    else
      match Find(children[0], p, like)
      case Some(found) => Some(Preferred(found, children[0], like))
      case None => FindAmong(children[1..], p, like)
  }

  /** What is made of a hit below a child: the hit if it looks like an identifier, else the child if it does. */
  function Preferred(found: Node, child: Node, like: Kinds): Node {
    if like(found.kind) then found else if like(child.kind) then child else found
  }

  /** Reached from the root through nodes that all contain the point. */
  ghost predicate ReachesThrough(node: Node, p: Point, target: Node)
    decreases node
  {
    node.Contains(p) &&
    (node == target || exists k | 0 <= k < |node.children| :: ReachesThrough(node.children[k], p, target))
  }

  ghost predicate IsBelow(node: Node, target: Node)
    decreases node
  {
    exists k | 0 <= k < |node.children| :: node.children[k] == target || IsBelow(node.children[k], target)
  }

  /** An identifier on one line is found at its first column, at its last, and in between, and on no other line. */
  lemma FoundOnItsColumns(kind: string, row: nat, first: nat, last: nat, p: Point, like: Kinds)
    requires like(kind)
    ensures var leaf := Node(kind, Point(row, first), Point(row, last), []);
            Find(leaf, p, like) == if p.row == row && first <= p.column <= last then Some(leaf) else None
  {
  }

  /** One on several lines is found on every line between and from its first column or up to its last on the others. */
  lemma FoundOnItsLines(kind: string, start: Point, end: Point, p: Point, like: Kinds)
    requires like(kind) && start.row < end.row
    ensures var leaf := Node(kind, start, end, []);
            Find(leaf, p, like) ==
            if start.row < p.row < end.row || (p.row == start.row && start.column <= p.column)
               || (p.row == end.row && p.column <= end.column)
            then Some(leaf) else None
  {
  }

  /** Every child lies within its parent. */
  predicate IsNested(node: Node)
    decreases node
  {
    forall k | 0 <= k < |node.children| ::
      node.start.UpTo(node.children[k].start) && node.children[k].end.UpTo(node.end) && IsNested(node.children[k])
  }

  lemma {:induction false} FindAmongIsFirst(children: seq<Node>, p: Point, like: Kinds)
    ensures match FindAmong(children, p, like)
            case None => forall k | 0 <= k < |children| :: Find(children[k], p, like) == None
            case Some(found) =>
              exists k | 0 <= k < |children| ::
                Find(children[k], p, like).Some? &&
                  found == Preferred(Find(children[k], p, like).value, children[k], like) &&
                forall j | 0 <= j < k :: Find(children[j], p, like) == None
    decreases children
  {
    hide Find, Preferred;
    if children != [] {
      FindAmongIsFirst(children[1..], p, like);
      if Find(children[0], p, like).None? && FindAmong(children[1..], p, like).Some? {
        var k :| 0 <= k < |children[1..]| && Find(children[1..][k], p, like).Some? &&
                 FindAmong(children[1..], p, like).value ==
                   Preferred(Find(children[1..][k], p, like).value, children[1..][k], like) &&
                 forall j | 0 <= j < k :: Find(children[1..][j], p, like) == None;
        assert forall j | 0 < j < k + 1 :: children[j] == children[1..][j - 1];
        assert children[k + 1] == children[1..][k];
      } else if Find(children[0], p, like).None? {
        assert forall j | 0 < j < |children| :: children[j] == children[1..][j - 1];
      }
    }
  }

  /**
   A hit looks like an identifier, contains the point, is reached through nodes that do, and is the innermost such.
   */
  lemma {:induction false} FoundIsInnermost(node: Node, p: Point, like: Kinds)
    ensures match Find(node, p, like)
            case None => true
            case Some(found) =>
              && like(found.kind) && found.Contains(p) && ReachesThrough(node, p, found)
              && forall k | 0 <= k < |found.children| :: Find(found.children[k], p, like) == None
    decreases node
  {
    hide FindAmong;
    if Find(node, p, like).Some? {
      FindAmongIsFirst(node.children, p, like);
      if FindAmong(node.children, p, like).Some? {
        var k :| 0 <= k < |node.children| && Find(node.children[k], p, like).Some? &&
                 Find(node, p, like).value == Preferred(Find(node.children[k], p, like).value, node.children[k], like);
        FoundIsInnermost(node.children[k], p, like);
      }
    }
  }

  /** Something is found if and only if an identifier is reached through nodes that contain the point. */
  lemma {:induction false} FoundExactly(node: Node, p: Point, like: Kinds)
    ensures Find(node, p, like).Some? <==> exists target: Node :: like(target.kind) && ReachesThrough(node, p, target)
    decreases node
  {
    hide FindAmong;
    if Find(node, p, like).Some? {
      FoundIsInnermost(node, p, like);
    } else if target: Node :| like(target.kind) && ReachesThrough(node, p, target) {
      FindAmongIsFirst(node.children, p, like);
      NotFoundHere(node, p, like);
      var k :| 0 <= k < |node.children| && ReachesThrough(node.children[k], p, target);
      FoundExactly(node.children[k], p, like);
    }
  }

  lemma NotFoundHere(node: Node, p: Point, like: Kinds)
    requires node.Contains(p) && Find(node, p, like).None?
    ensures !like(node.kind) && FindAmong(node.children, p, like).None?
  {
  }

  lemma {:induction false} NestedContains(node: Node, p: Point, target: Node)
    requires IsNested(node) && IsBelow(node, target) && target.Contains(p)
    ensures ReachesThrough(node, p, target)
    decreases node
  {
    var k :| 0 <= k < |node.children| && (node.children[k] == target || IsBelow(node.children[k], target));
    if node.children[k] != target {
      NestedContains(node.children[k], p, target);
    }
  }

  lemma {:induction false} ReachedIsNested(node: Node, p: Point, target: Node)
    requires IsNested(node) && ReachesThrough(node, p, target)
    ensures IsNested(target) && (target == node || IsBelow(node, target)) && target.Contains(p)
    decreases node
  {
    if node != target {
      var k :| 0 <= k < |node.children| && ReachesThrough(node.children[k], p, target);
      ReachedIsNested(node.children[k], p, target);
    }
  }

  /**
   In a tree of nested ranges: a hit is an identifier at the point with no identifier at the point below it; and there
   is a hit exactly when some identifier of the tree contains the point.
   */
  lemma NestedSearch(node: Node, p: Point, like: Kinds)
    requires IsNested(node)
    ensures match Find(node, p, like)
            case None => true
            case Some(found) =>
              && like(found.kind) && found.Contains(p) && (found == node || IsBelow(node, found))
              && forall d: Node | IsBelow(found, d) && d.Contains(p) :: !like(d.kind)
    ensures Find(node, p, like).Some? <==>
            exists target: Node :: (target == node || IsBelow(node, target)) && like(target.kind) && target.Contains(p)
  {
    hide Find, IsNested, IsBelow, ReachesThrough;
    FoundIsInnermost(node, p, like);
    FoundExactly(node, p, like);
    match Find(node, p, like)
    case Some(found) =>
      ReachedIsNested(node, p, found);
      forall d: Node | IsBelow(found, d) && d.Contains(p) ensures !like(d.kind) {
        NestedContains(found, p, d);
        NothingBelow(found, p, like, d);
      }
    case None =>
      forall target: Node | (target == node || IsBelow(node, target)) && target.Contains(p) ensures !like(target.kind) {
        if target == node {
          ReachesItself(node, p);
        } else {
          NestedContains(node, p, target);
        }
      }
  }

  lemma ReachesItself(node: Node, p: Point)
    requires node.Contains(p)
    ensures ReachesThrough(node, p, node)
  {
  }

  lemma {:induction false} NothingBelow(found: Node, p: Point, like: Kinds, d: Node)
    requires ReachesThrough(found, p, d) && IsBelow(found, d)
    requires forall k | 0 <= k < |found.children| :: Find(found.children[k], p, like) == None
    ensures !like(d.kind)
  {
    hide Find;
    BelowIsSmaller(found, d);
    var k :| 0 <= k < |found.children| && ReachesThrough(found.children[k], p, d);
    FoundExactly(found.children[k], p, like);
  }

  lemma {:induction false} BelowIsSmaller(node: Node, target: Node)
    requires IsBelow(node, target)
    ensures Size(target) < Size(node) && target != node
    decreases node
  {
    var k :| 0 <= k < |node.children| && (node.children[k] == target || IsBelow(node.children[k], target));
    SizeOfChild(node.children, k);
    if node.children[k] != target {
      BelowIsSmaller(node.children[k], target);
    }
  }

  function Size(node: Node): nat
    decreases node
  {
    1 + TotalSize(node.children)
  }

  function TotalSize(children: seq<Node>): nat
    decreases children
  {
    if children == [] then 0 else Size(children[0]) + TotalSize(children[1..])
  }

  lemma {:induction false} SizeOfChild(children: seq<Node>, k: nat)
    requires k < |children|
    ensures Size(children[k]) <= TotalSize(children)
    decreases children
  {
    hide Size;
    if k > 0 {
      SizeOfChild(children[1..], k - 1);
    }
  }
}
